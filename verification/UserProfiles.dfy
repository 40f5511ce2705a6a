/** The profile cache shared by all `useUserProfile` hooks: one map holding, per user, a pending
    request or its result, filled by hooks that mount, change user, unmount and refresh while
    responses arrive in any order. */
module UserProfiles {
  import opened Sequences

  type User = int

  /** What a request yields: a profile, `null` when it failed, or `undefined` for an answer that
      reports success without data. */
  datatype Data = Profile(text: string) | Null | Missing

  /** `result` is `None` until the response has arrived. */
  datatype Request = Request(user: User, result: Option<Data>)

  datatype Slot = Pending(req: nat) | Value(data: Data)

  /** The promise `fetchUserProfile` returns. */
  datatype Promise = OfRequest(req: nat) | Resolved(data: Data)

  /** A continuation attached to a promise, by an effect or by `refresh`. */
  datatype Waiter = Waiter(hook: nat, user: User, promise: Promise, isEffect: bool, cancelled: bool, delivered: bool)

  /** `user` is `None` when the user id is missing; `effect` is the waiter of the current effect. */
  datatype Hook = Hook(mounted: bool, user: Option<User>, userInfo: Data, loading: bool, effect: Option<nat>)

  datatype World = World(cache: map<User, Slot>, requests: seq<Request>, waiters: seq<Waiter>, hooks: seq<Hook>)

  const INIT := World(map[], [], [], [])

  datatype Event =
    | Mount(user: Option<User>)
    | ChangeUser(hook: nat, user: Option<User>)
    | Unmount(hook: nat)
    | Refresh(hook: nat, of: User)
    | Respond(req: nat, data: Data)
    | Deliver(waiter: nat)

  // ---------------------------------------------------------------- steps

  /** `cache.get(userId) !== undefined`: a held `undefined` counts as nothing held. */
  predicate Cached(w: World, u: User) {
    u in w.cache && w.cache[u] != Value(Missing)
  }

  /** `fetchUserProfile`. */
  function Fetch(w: World, u: User): (World, Promise) {
    if Cached(w, u) then
      match w.cache[u]
      case Pending(r) => (w, OfRequest(r))
      case Value(d) => (w, Resolved(d))
    else
      var r := |w.requests|;
      (w.(requests := w.requests + [Request(u, None)], cache := w.cache[u := Pending(r)]), OfRequest(r))
  }

  /** Fetch for hook `h` and wait for the answer. */
  function Await(w: World, h: nat, u: User, isEffect: bool): World {
    var (w', p) := Fetch(w, u);
    w'.(waiters := w'.waiters + [Waiter(h, u, p, isEffect, false, false)])
  }

  /** The effect's body for hook `h`. */
  function RunEffect(w: World, h: nat): World
    requires h < |w.hooks|
  {
    var hook := w.hooks[h];
    match hook.user
    case None => w.(hooks := w.hooks[h := hook.(userInfo := Null, loading := false, effect := None)])
    case Some(u) => Await(w.(hooks := w.hooks[h := hook.(loading := true, effect := Some(|w.waiters|))]), h, u, true)
  }

  /** The effect's cleanup for hook `h`. */
  function Cleanup(w: World, h: nat): World
    requires h < |w.hooks|
  {
    match w.hooks[h].effect
    case None => w
    case Some(k) => if k < |w.waiters| then w.(waiters := w.waiters[k := w.waiters[k].(cancelled := true)]) else w
  }

  /** What the promise has settled to, if it has. */
  function Outcome(w: World, p: Promise): Option<Data> {
    match p
    case Resolved(d) => Some(d)
    case OfRequest(r) => if r < |w.requests| then w.requests[r].result else None
  }

  function Step(w: World, e: Event): World {
    match e
    case Mount(user) =>
      RunEffect(w.(hooks := w.hooks + [Hook(true, user, Null, false, None)]), |w.hooks|)
    case ChangeUser(h, user) =>
      if h < |w.hooks| && w.hooks[h].mounted && w.hooks[h].user != user then
        var c := Cleanup(w, h);
        RunEffect(c.(hooks := c.hooks[h := c.hooks[h].(user := user)]), h)
      else w
    case Unmount(h) =>
      if h < |w.hooks| && w.hooks[h].mounted then
        var c := Cleanup(w, h);
        c.(hooks := c.hooks[h := c.hooks[h].(mounted := false)])
      else w
    case Refresh(h, u) =>
      if h < |w.hooks| then
        Await(w.(cache := w.cache - {u}, hooks := w.hooks[h := w.hooks[h].(loading := true)]), h, u, false)
      else w
    case Respond(r, data) =>
      if r < |w.requests| && w.requests[r].result.None? then
        var u := w.requests[r].user;
        w.(requests := w.requests[r := Request(u, Some(data))], cache := w.cache[u := Value(data)])
      else w
    case Deliver(k) =>
      if k < |w.waiters| && !w.waiters[k].delivered && Outcome(w, w.waiters[k].promise).Some? then
        var waiter := w.waiters[k];
        var done := w.(waiters := w.waiters[k := waiter.(delivered := true)]);
        if (waiter.isEffect && waiter.cancelled) || waiter.hook >= |w.hooks| then done
        else done.(hooks := w.hooks[waiter.hook :=
          w.hooks[waiter.hook].(userInfo := Outcome(w, waiter.promise).value, loading := false)])
      else w
  }

  function Run(es: seq<Event>): World {
    if es == [] then INIT else Step(Run(DropLast(es)), Last(es))
  }

  // ---------------------------------------------------------------- one request per user and refresh

  function RequestCount(rs: seq<Request>, u: User): nat {
    if rs == [] then 0 else RequestCount(DropLast(rs), u) + if Last(rs).user == u then 1 else 0
  }

  /** The answers without data to requests for `u`. */
  function MissingCount(rs: seq<Request>, u: User): nat {
    if rs == [] then 0 else MissingCount(DropLast(rs), u) + if Last(rs) == Request(u, Some(Missing)) then 1 else 0
  }

  /** A cached promise is an unanswered request for that user; a cached value answered one. */
  ghost predicate CacheSound(w: World) {
    forall u :: u in w.cache ==> SlotSound(w.requests, u, w.cache[u])
  }

  ghost predicate SlotSound(requests: seq<Request>, u: User, slot: Slot) {
    if slot.Pending? then slot.req < |requests| && requests[slot.req] == Request(u, None)
    else Request(u, Some(slot.data)) in requests
  }

  /** Answering request `r` changes no request count, and the count of missing data by its own. */
  lemma {:induction false} CountsAnswered(rs: seq<Request>, r: nat, data: Data, u: User)
    requires r < |rs| && rs[r].result.None?
    ensures var qs := rs[r := Request(rs[r].user, Some(data))];
      && RequestCount(qs, u) == RequestCount(rs, u)
      && MissingCount(qs, u) == MissingCount(rs, u) + if rs[r].user == u && data == Missing then 1 else 0
  {
    var qs := rs[r := Request(rs[r].user, Some(data))];
    if r == |rs| - 1 {
      assert DropLast(qs) == DropLast(rs);
    } else {
      CountsAnswered(DropLast(rs), r, data, u);
      assert DropLast(qs) == DropLast(rs)[r := Request(rs[r].user, Some(data))];
    }
  }

  lemma FetchSound(w: World, v: User)
    requires CacheSound(w)
    ensures CacheSound(Fetch(w, v).0) && Cached(Fetch(w, v).0, v)
    ensures w.requests <= Fetch(w, v).0.requests
  {
    var f := Fetch(w, v).0;
    forall u | u in f.cache ensures SlotSound(f.requests, u, f.cache[u]) {
      assert u in w.cache ==> SlotSound(w.requests, u, w.cache[u]);
    }
  }

  lemma RespondSound(w: World, r: nat, data: Data)
    requires CacheSound(w)
    ensures CacheSound(Step(w, Respond(r, data)))
  {
    if r < |w.requests| && w.requests[r].result.None? {
      var v := w.requests[r].user;
      var s := Step(w, Respond(r, data));
      assert s.requests[r] == Request(v, Some(data));
      forall u | u in s.cache && u != v ensures SlotSound(s.requests, u, s.cache[u]) {
        assert SlotSound(w.requests, u, w.cache[u]);
        if w.cache[u].Value? {
          var q :| 0 <= q < |w.requests| && w.requests[q] == Request(u, Some(w.cache[u].data));
          assert s.requests[q] == w.requests[q];
        }
      }
    }
  }

  /** The user an effect fetches for in this step, if any. */
  function EffectFor(w: World, e: Event): Option<User> {
    match e
    case Mount(user) => user
    case ChangeUser(h, user) => if h < |w.hooks| && w.hooks[h].mounted && w.hooks[h].user != user then user else None
    case _ => None
  }

  predicate Refreshes(w: World, e: Event, u: User) {
    e.Refresh? && e.of == u && e.hook < |w.hooks|
  }

  /** Only mounting, changing user and refreshing fetch; each fetches once, on the cache as it was
      or, for a refresh, without the refreshed user. */
  lemma StepFetches(w: World, e: Event) returns (from: World, v: Option<User>)
    ensures e.Respond? ==> v == None && from == Step(w, e)
    ensures !e.Respond? ==> from.requests == w.requests
    ensures !e.Respond? ==> from.cache == if e.Refresh? && v == Some(e.of) then w.cache - {e.of} else w.cache
    ensures v == if e.Refresh? then (if Refreshes(w, e, e.of) then Some(e.of) else None) else EffectFor(w, e)
    ensures v == None ==> Step(w, e).cache == from.cache && Step(w, e).requests == from.requests
    ensures v.Some? ==> Step(w, e).cache == Fetch(from, v.value).0.cache
    ensures v.Some? ==> Step(w, e).requests == Fetch(from, v.value).0.requests
  {
    from, v := w, None;
    match e
    case Mount(user) =>
      v := user;
    case ChangeUser(h, user) =>
      if h < |w.hooks| && w.hooks[h].mounted && w.hooks[h].user != user {
        v := user;
      }
    case Refresh(h, u) =>
      if h < |w.hooks| {
        from, v := w.(cache := w.cache - {u}), Some(u);
      }
    case Respond(_, _) =>
      from := Step(w, e);
    case Unmount(_) =>
    case Deliver(_) =>
  }

  lemma StepSound(w: World, e: Event)
    requires CacheSound(w)
    ensures CacheSound(Step(w, e))
  {
    var from, v := StepFetches(w, e);
    if e.Respond? {
      RespondSound(w, e.req, e.data);
    } else {
      assert CacheSound(from);
      if v.Some? {
        FetchSound(from, v.value);
      }
    }
  }

  // ---------------------------------------------------------------- exactly which requests are issued

  predicate MissingHeld(w: World, u: User) {
    u in w.cache && w.cache[u] == Value(Missing)
  }

  /** The refreshes of `u` by hooks there are. */
  function RefreshCount(es: seq<Event>, u: User): nat {
    if es == [] then 0
    else RefreshCount(DropLast(es), u) + if Refreshes(Run(DropLast(es)), Last(es), u) then 1 else 0
  }

  /** The effects for `u` that found an answer without data held. */
  function AskedAgain(es: seq<Event>, u: User): nat {
    if es == [] then 0
    else
      var w := Run(DropLast(es));
      AskedAgain(DropLast(es), u) + if EffectFor(w, Last(es)) == Some(u) && MissingHeld(w, u) then 1 else 0
  }

  /** The first to ask for `u` was an effect, not a refresh. */
  predicate FirstAskedByEffect(es: seq<Event>, u: User) {
    es != [] &&
      if u in Run(DropLast(es)).cache then FirstAskedByEffect(DropLast(es), u)
      else EffectFor(Run(DropLast(es)), Last(es)) == Some(u)
  }

  lemma FetchRequests(w: World, v: User, u: User)
    ensures RequestCount(Fetch(w, v).0.requests, u)
         == RequestCount(w.requests, u) + if v == u && !Cached(w, u) then 1 else 0
    ensures MissingCount(Fetch(w, v).0.requests, u) == MissingCount(w.requests, u)
  {
    assert DropLast(w.requests + [Request(v, None)]) == w.requests;
  }

  lemma StepRequests(w: World, e: Event, u: User)
    ensures RequestCount(Step(w, e).requests, u) == RequestCount(w.requests, u)
      + (if Refreshes(w, e, u) then 1 else 0)
      + (if EffectFor(w, e) == Some(u) && !Cached(w, u) then 1 else 0)
  {
    var from, v := StepFetches(w, e);
    if e.Respond? && e.req < |w.requests| && w.requests[e.req].result.None? {
      CountsAnswered(w.requests, e.req, e.data, u);
    } else if v.Some? {
      FetchRequests(from, v.value, u);
    }
  }

  lemma {:induction false} NoneCountedBefore(es: seq<Event>, u: User)
    requires u !in Run(es).cache
    ensures RefreshCount(es, u) == 0 && AskedAgain(es, u) == 0 && !FirstAskedByEffect(es, u)
  {
    if es == [] {
    } else {
      var w, e := Run(DropLast(es)), Last(es);
      StepKeepsKeys(w, e, u);
      NoneCountedBefore(DropLast(es), u);
    }
  }

  lemma StepKeepsKeys(w: World, e: Event, u: User)
    ensures u in w.cache || Refreshes(w, e, u) || EffectFor(w, e) == Some(u) ==> u in Step(w, e).cache
  {
    var from, v := StepFetches(w, e);
  }

  /** In every run the requests issued for a user are exactly its first one if an effect asked for
      it, one for each refresh, and one for each effect that found an answer without data. */
  lemma {:induction false} RequestsExactly(es: seq<Event>, u: User)
    ensures RequestCount(Run(es).requests, u)
         == RefreshCount(es, u) + AskedAgain(es, u) + if FirstAskedByEffect(es, u) then 1 else 0
  {
    if es == [] {
    } else {
      var w, e := Run(DropLast(es)), Last(es);
      RequestsExactly(DropLast(es), u);
      StepRequests(w, e, u);
      if u !in w.cache {
        NoneCountedBefore(DropLast(es), u);
      }
    }
  }

  /** So a user gets at most one request besides its refreshes exactly when no effect found an answer
      without data held for it, or one did where a refresh had been the first to ask. */
  lemma OneBesidesRefreshesIff(es: seq<Event>, u: User)
    ensures RequestCount(Run(es).requests, u) <= 1 + RefreshCount(es, u)
       <==> AskedAgain(es, u) == 0 || (AskedAgain(es, u) == 1 && !FirstAskedByEffect(es, u))
  {
    RequestsExactly(es, u);
  }

  lemma StepMissing(w: World, e: Event, u: User)
    ensures var s := Step(w, e);
      MissingCount(s.requests, u) + (if MissingHeld(w, u) then 1 else 0)
        >= MissingCount(w.requests, u) + (if MissingHeld(s, u) then 1 else 0)
         + (if EffectFor(w, e) == Some(u) && MissingHeld(w, u) then 1 else 0)
  {
    var from, v := StepFetches(w, e);
    if e.Respond? && e.req < |w.requests| && w.requests[e.req].result.None? {
      CountsAnswered(w.requests, e.req, e.data, u);
    } else if v.Some? {
      FetchRequests(from, v.value, u);
    }
  }

  lemma {:induction false} AskedAgainAtMostMissing(es: seq<Event>, u: User)
    ensures AskedAgain(es, u) + (if MissingHeld(Run(es), u) then 1 else 0) <= MissingCount(Run(es).requests, u)
  {
    if es == [] {
    } else {
      AskedAgainAtMostMissing(DropLast(es), u);
      StepMissing(Run(DropLast(es)), Last(es), u);
    }
  }

  lemma {:induction false} RunSound(es: seq<Event>)
    ensures CacheSound(Run(es))
  {
    if es == [] {
    } else {
      RunSound(DropLast(es));
      StepSound(Run(DropLast(es)), Last(es));
    }
  }

  /** Over every interleaving, the requests issued for a user are at most one plus its refreshes and
      its answers without data, and every cache entry is a pending request for, or an answer to a
      request for, its own user. */
  lemma RequestsShared(es: seq<Event>, u: User)
    ensures RequestCount(Run(es).requests, u) <= 1 + RefreshCount(es, u) + MissingCount(Run(es).requests, u)
    ensures CacheSound(Run(es))
  {
    RequestsExactly(es, u);
    AskedAgainAtMostMissing(es, u);
    RunSound(es);
  }

  // ---------------------------------------------------------------- freshness

  /** Request `r` is the latest issued for its user. */
  ghost predicate Newest(w: World, r: nat) {
    r < |w.requests| && forall q: nat :: r < q < |w.requests| ==> w.requests[q].user != w.requests[r].user
  }

  ghost predicate Outstanding(w: World, u: User) {
    exists r: nat :: r < |w.requests| && w.requests[r] == Request(u, None)
  }

  /** The cache holds request `r` or its answer. */
  ghost predicate Holds(w: World, r: nat)
    requires r < |w.requests|
  {
    var q := w.requests[r];
    q.user in w.cache && w.cache[q.user] == if q.result.None? then Pending(r) else Value(q.result.value)
  }

  /** For every user asked for, the cache holds the newest request or its answer. */
  ghost predicate Fresh(w: World) {
    forall r: nat :: Newest(w, r) ==> Holds(w, r)
  }

  /** Only newest requests are still unanswered. */
  ghost predicate NoOldPending(w: World) {
    forall r: nat :: r < |w.requests| && w.requests[r].result.None? ==> Newest(w, r)
  }

  /** Fresh, and no answer still to come can be an old one. */
  ghost predicate Safe(w: World) {
    Fresh(w) && NoOldPending(w)
  }

  lemma {:induction false} NewestOf(w: World, q: nat) returns (r: nat)
    requires q < |w.requests|
    ensures q <= r && Newest(w, r) && w.requests[r].user == w.requests[q].user
    decreases |w.requests| - q
  {
    if Newest(w, q) {
      r := q;
    } else {
      var p: nat :| q < p < |w.requests| && w.requests[p].user == w.requests[q].user;
      r := NewestOf(w, p);
    }
  }

  /** A new request for a user with none unanswered, when all other users are fresh. */
  lemma NewRequestSafe(w: World, v: User)
    requires !Cached(w, v) && !Outstanding(w, v) && NoOldPending(w)
    requires forall r: nat :: Newest(w, r) && w.requests[r].user != v ==> Holds(w, r)
    ensures Safe(Fetch(w, v).0)
  {
    var f, n := Fetch(w, v).0, |w.requests|;
    forall r: nat | r < n
      ensures f.requests[r] == w.requests[r] && (Newest(f, r) <==> Newest(w, r) && w.requests[r].user != v)
    {
      if Newest(f, r) {
        assert f.requests[n].user != f.requests[r].user;
        assert forall q: nat :: r < q < n ==> f.requests[q] == w.requests[q];
      }
    }
    forall r: nat | Newest(f, r) ensures Holds(f, r) {
      if r < n {
        assert Holds(w, r);
      }
    }
    forall r: nat | r < |f.requests| && f.requests[r].result.None? ensures Newest(f, r) {
      if r < n {
        assert Newest(w, r) && w.requests[r] == Request(w.requests[r].user, None);
      }
    }
  }

  lemma FetchSafe(w: World, v: User)
    requires Safe(w)
    ensures Safe(Fetch(w, v).0)
  {
    if !Cached(w, v) {
      forall r: nat | r < |w.requests| ensures w.requests[r] != Request(v, None) {
        if w.requests[r].result.None? {
          assert Newest(w, r) && Holds(w, r);
        }
      }
      forall r: nat | Newest(w, r) && w.requests[r].user != v ensures Holds(w, r) {
      }
      NewRequestSafe(w, v);
    }
  }

  lemma RespondSafe(w: World, r: nat, data: Data)
    requires Safe(w)
    ensures Safe(Step(w, Respond(r, data)))
  {
    if r < |w.requests| && w.requests[r].result.None? {
      var s := Step(w, Respond(r, data));
      assert forall q: nat :: q < |w.requests| ==> s.requests[q].user == w.requests[q].user;
      assert Newest(w, r);
      forall q: nat | Newest(s, q) ensures Holds(s, q) {
        assert Newest(w, q) && Holds(w, q);
      }
      forall q: nat | q < |s.requests| && s.requests[q].result.None? ensures Newest(s, q) {
        assert w.requests[q].result.None? && Newest(w, q);
      }
    }
  }

  lemma SameRequestsSafe(w: World, s: World)
    requires Safe(w) && s.cache == w.cache && s.requests == w.requests
    ensures Safe(s)
  {
    forall r: nat | Newest(s, r) ensures Holds(s, r) {
      assert Newest(w, r) && Holds(w, r);
    }
    forall r: nat | r < |s.requests| && s.requests[r].result.None? ensures Newest(s, r) {
      assert Newest(w, r);
    }
  }

  /** Every step keeps the cache safe, except a refresh while an answer for that user is awaited. */
  lemma StepSafe(w: World, e: Event)
    requires Safe(w)
    requires e.Refresh? ==> !Outstanding(w, e.of)
    ensures Safe(Step(w, e))
  {
    var from, v := StepFetches(w, e);
    if e.Respond? {
      RespondSafe(w, e.req, e.data);
    } else if v.None? {
      SameRequestsSafe(w, Step(w, e));
    } else {
      if e.Refresh? {
        forall r: nat | Newest(from, r) && from.requests[r].user != e.of ensures Holds(from, r) {
          assert Newest(w, r) && Holds(w, r);
        }
        assert forall r: nat :: Newest(w, r) ==> Newest(from, r);
        assert Outstanding(from, e.of) ==> Outstanding(w, e.of);
        NewRequestSafe(from, e.of);
      } else {
        SameRequestsSafe(w, from);
        FetchSafe(from, v.value);
      }
      SameRequestsSafe(Fetch(from, v.value).0, Step(w, e));
    }
  }

  /** A refresh always asks again: it issues one request for its user, which is then the newest and
      the one cached, and sets its hook loading. */
  lemma RefreshAsksAgain(w: World, h: nat, u: User)
    requires h < |w.hooks|
    ensures var s := Step(w, Refresh(h, u)); var n := |w.requests|;
      && s.requests == w.requests + [Request(u, None)] && Newest(s, n)
      && s.cache == w.cache[u := Pending(n)]
      && s.hooks == w.hooks[h := w.hooks[h].(loading := true)]
      && s.waiters == w.waiters + [Waiter(h, u, OfRequest(n), false, false, false)]
  {
    assert (w.cache - {u})[u := Pending(|w.requests|)] == w.cache[u := Pending(|w.requests|)];
  }

  /** Each refresh finds no unanswered request for its user. */
  ghost predicate QuietRefreshes(es: seq<Event>) {
    es == [] || (QuietRefreshes(DropLast(es)) && (Last(es).Refresh? ==> !Outstanding(Run(DropLast(es)), Last(es).of)))
  }

  /** Then the cache is fresh in every reachable state. */
  lemma {:induction false} AlwaysFresh(es: seq<Event>)
    requires QuietRefreshes(es)
    ensures Fresh(Run(es)) && NoOldPending(Run(es))
  {
    if es == [] {
    } else {
      AlwaysFresh(DropLast(es));
      StepSafe(Run(DropLast(es)), Last(es));
    }
  }

  /** A refresh keeps a safe cache safe exactly when its user has no unanswered request. */
  lemma RefreshSafeIff(w: World, h: nat, u: User)
    requires Safe(w) && h < |w.hooks|
    ensures Safe(Step(w, Refresh(h, u))) <==> !Outstanding(w, u)
  {
    if Outstanding(w, u) {
      var r: nat :| r < |w.requests| && w.requests[r] == Request(u, None);
      var s := Step(w, Refresh(h, u));
      assert s.requests[r] == w.requests[r] && s.requests[|w.requests|].user == u;
      assert !Newest(s, r);
    } else {
      StepSafe(w, Refresh(h, u));
    }
  }

  /** And an unsafe cache can go stale: some answer to an old request replaces what is newer. */
  lemma OldAnswerGoesStale(w: World, r: nat) returns (data: Data)
    requires r < |w.requests| && w.requests[r].result.None? && !Newest(w, r)
    ensures !Fresh(Step(w, Respond(r, data)))
  {
    var n := NewestOf(w, r);
    data := if w.requests[n].result == Some(Null) then Missing else Null;
    var s := Step(w, Respond(r, data));
    assert forall q: nat :: q < |w.requests| ==> s.requests[q].user == w.requests[q].user;
    assert s.requests[n] == w.requests[n];
    assert Newest(s, n) && !Holds(s, n);
  }

  // ---------------------------------------------------------------- refresh-free runs

  /** Waiter `k` is an effect's; unless cancelled, it is the current one of a mounted hook. */
  ghost predicate WaiterSound(w: World, k: nat)
    requires k < |w.waiters|
  {
    var t := w.waiters[k];
    && t.isEffect && t.hook < |w.hooks|
    && (t.promise.OfRequest? ==> t.promise.req < |w.requests| && w.requests[t.promise.req].user == t.user)
    && (t.delivered ==> Outcome(w, t.promise).Some?)
    && (!t.cancelled ==> w.hooks[t.hook].mounted && w.hooks[t.hook].effect == Some(k))
  }

  /** A mounted hook without a user shows nothing; one with a user has a live effect for it, is
      loading until that effect is served, and then shows what it was served. */
  ghost predicate HookSound(w: World, h: nat)
    requires h < |w.hooks|
  {
    var hook := w.hooks[h];
    hook.mounted ==>
      if hook.effect.None? then hook.user == None && hook.userInfo == Null && !hook.loading
      else
        var k := hook.effect.value;
        && k < |w.waiters| && w.waiters[k].hook == h && hook.user == Some(w.waiters[k].user)
        && !w.waiters[k].cancelled
        && hook.loading == !w.waiters[k].delivered
        && (w.waiters[k].delivered ==> Outcome(w, w.waiters[k].promise) == Some(hook.userInfo))
  }

  ghost predicate Consistent(w: World) {
    && (forall k: nat :: k < |w.waiters| ==> WaiterSound(w, k))
    && (forall h: nat :: h < |w.hooks| ==> HookSound(w, h))
  }

  /** Hook `h` has no live waiter; all else is consistent, and the cache sound. */
  ghost predicate Detached(w: World, h: nat) {
    && h < |w.hooks| && CacheSound(w)
    && (forall k: nat :: k < |w.waiters| ==> WaiterSound(w, k) && (w.waiters[k].hook == h ==> w.waiters[k].cancelled))
    && (forall j: nat :: j < |w.hooks| && j != h ==> HookSound(w, j))
  }

  lemma CleanupDetaches(w: World, h: nat)
    requires Consistent(w) && CacheSound(w) && h < |w.hooks| && w.hooks[h].mounted
    ensures Detached(Cleanup(w, h), h) && Cleanup(w, h).hooks == w.hooks
  {
    var c := Cleanup(w, h);
    assert HookSound(w, h);
    forall k: nat | k < |c.waiters| ensures WaiterSound(c, k) && (c.waiters[k].hook == h ==> c.waiters[k].cancelled) {
      assert WaiterSound(w, k);
    }
    forall j: nat | j < |c.hooks| && j != h ensures HookSound(c, j) {
      assert HookSound(w, j);
    }
    assert forall u :: u in c.cache ==> SlotSound(w.requests, u, w.cache[u]);
  }

  lemma DetachedAnyHook(w: World, h: nat, hook: Hook)
    requires Detached(w, h)
    ensures Detached(w.(hooks := w.hooks[h := hook]), h)
  {
    var c := w.(hooks := w.hooks[h := hook]);
    forall k: nat | k < |c.waiters| ensures WaiterSound(c, k) {
      assert WaiterSound(w, k);
    }
    forall j: nat | j < |c.hooks| && j != h ensures HookSound(c, j) {
      assert HookSound(w, j);
    }
    assert forall u :: u in c.cache ==> SlotSound(w.requests, u, w.cache[u]);
  }

  /** Fetching leaves every waiter and every other hook sound. */
  lemma FetchDetached(w: World, h: nat, u: User)
    requires Detached(w, h)
    ensures Detached(Fetch(w, u).0, h)
  {
    var f := Fetch(w, u).0;
    FetchSound(w, u);
    forall k: nat | k < |f.waiters| ensures WaiterSound(f, k) {
      assert WaiterSound(w, k);
    }
    forall j: nat | j < |f.hooks| && j != h ensures HookSound(f, j) {
      assert HookSound(w, j);
    }
  }

  /** The promise of a fetch settles to what the cache then holds. */
  lemma FetchedPromise(w: World, u: User)
    requires CacheSound(w)
    ensures var (f, p) := Fetch(w, u);
      && u in f.cache
      && (Outcome(f, p).Some? ==> f.cache[u] == Value(Outcome(f, p).value))
      && (p.OfRequest? ==> p.req < |f.requests| && f.requests[p.req].user == u)
  {
    assert u in w.cache ==> SlotSound(w.requests, u, w.cache[u]);
  }

  lemma EffectConsistent(w: World, h: nat)
    requires Detached(w, h) && w.hooks[h].mounted && w.hooks[h].user.None?
    ensures Consistent(RunEffect(w, h))
  {
    var s := RunEffect(w, h);
    DetachedAnyHook(w, h, s.hooks[h]);
  }

  lemma AwaitConsistent(w: World, h: nat, u: User)
    requires Detached(w, h)
    requires w.hooks[h].mounted && w.hooks[h].user == Some(u)
    requires w.hooks[h].loading && w.hooks[h].effect == Some(|w.waiters|)
    ensures Consistent(Await(w, h, u, true))
  {
    var s := Await(w, h, u, true);
    var f := Fetch(w, u).0;
    FetchDetached(w, h, u);
    FetchedPromise(w, u);
    forall k: nat | k < |s.waiters| ensures WaiterSound(s, k) {
      if k < |f.waiters| {
        assert WaiterSound(f, k);
      }
    }
    forall j: nat | j < |s.hooks| ensures HookSound(s, j) {
      if j != h {
        assert HookSound(f, j);
      }
    }
  }

  lemma RunEffectConsistent(w: World, h: nat)
    requires Detached(w, h) && w.hooks[h].mounted
    ensures Consistent(RunEffect(w, h))
  {
    var hook := w.hooks[h];
    if hook.user.None? {
      EffectConsistent(w, h);
    } else {
      var loading := hook.(loading := true, effect := Some(|w.waiters|));
      DetachedAnyHook(w, h, loading);
      AwaitConsistent(w.(hooks := w.hooks[h := loading]), h, hook.user.value);
    }
  }

  lemma MountConsistent(w: World, user: Option<User>)
    requires Consistent(w) && CacheSound(w)
    ensures Consistent(Step(w, Mount(user)))
  {
    var n := |w.hooks|;
    var c := w.(hooks := w.hooks + [Hook(true, user, Null, false, None)]);
    forall k: nat | k < |c.waiters| ensures WaiterSound(c, k) && c.waiters[k].hook != n {
      assert WaiterSound(w, k);
    }
    forall j: nat | j < |c.hooks| && j != n ensures HookSound(c, j) {
      assert HookSound(w, j);
    }
    assert forall u :: u in c.cache ==> SlotSound(w.requests, u, w.cache[u]);
    RunEffectConsistent(c, n);
  }

  lemma LeaveConsistent(w: World, e: Event)
    requires Consistent(w) && CacheSound(w) && (e.ChangeUser? || e.Unmount?)
    ensures Consistent(Step(w, e))
  {
    if e.hook < |w.hooks| && w.hooks[e.hook].mounted {
      var h := e.hook;
      CleanupDetaches(w, h);
      var c := Cleanup(w, h);
      match e
      case ChangeUser(_, user) =>
        if w.hooks[h].user != user {
          DetachedAnyHook(c, h, c.hooks[h].(user := user));
          RunEffectConsistent(c.(hooks := c.hooks[h := c.hooks[h].(user := user)]), h);
        }
      case Unmount(_) =>
        DetachedAnyHook(c, h, c.hooks[h].(mounted := false));
    }
  }

  lemma RespondWaiter(w: World, r: nat, data: Data, k: nat)
    requires Consistent(w) && k < |w.waiters|
    ensures WaiterSound(Step(w, Respond(r, data)), k)
    ensures Outcome(w, w.waiters[k].promise).Some? ==>
      Outcome(Step(w, Respond(r, data)), w.waiters[k].promise) == Outcome(w, w.waiters[k].promise)
  {
    assert WaiterSound(w, k);
  }

  lemma RespondConsistent(w: World, r: nat, data: Data)
    requires Consistent(w)
    ensures Consistent(Step(w, Respond(r, data)))
  {
    if r < |w.requests| && w.requests[r].result.None? {
      var s := Step(w, Respond(r, data));
      forall k: nat | k < |s.waiters| ensures WaiterSound(s, k) {
        RespondWaiter(w, r, data, k);
      }
      forall h: nat | h < |s.hooks| ensures HookSound(s, h) {
        assert HookSound(w, h);
        if w.hooks[h].mounted && w.hooks[h].effect.Some? {
          RespondWaiter(w, r, data, w.hooks[h].effect.value);
        }
      }
    }
  }

  /** Serving a waiter writes to no hook but the one whose current effect it is. */
  lemma DeliverWritesOwner(w: World, k: nat, h: nat)
    requires Consistent(w) && h < |w.hooks| && Step(w, Deliver(k)).hooks[h] != w.hooks[h]
    ensures w.hooks[h].mounted && w.hooks[h].effect == Some(k) && !w.waiters[k].cancelled
  {
    assert WaiterSound(w, k);
  }

  lemma DeliverConsistent(w: World, k: nat)
    requires Consistent(w)
    ensures Consistent(Step(w, Deliver(k)))
  {
    var s := Step(w, Deliver(k));
    if k < |w.waiters| && !w.waiters[k].delivered && Outcome(w, w.waiters[k].promise).Some? {
      assert WaiterSound(w, k);
      forall i: nat | i < |s.waiters| ensures WaiterSound(s, i) {
        assert WaiterSound(w, i);
      }
      forall h: nat | h < |s.hooks| ensures HookSound(s, h) {
        assert HookSound(w, h);
        if s.hooks[h] != w.hooks[h] {
          DeliverWritesOwner(w, k, h);
        }
      }
      }
  }

  ghost predicate RefreshFree(es: seq<Event>) {
    forall i :: 0 <= i < |es| ==> !es[i].Refresh?
  }

  /** Answers are final. */
  lemma AnswersStay(w: World, e: Event)
    ensures |w.requests| <= |Step(w, e).requests|
    ensures forall i :: 0 <= i < |w.requests| && w.requests[i].result.Some? ==> Step(w, e).requests[i] == w.requests[i]
  {
    var from, v := StepFetches(w, e);
  }

  /** In every refresh-free run each mounted hook agrees with its one live effect. */
  lemma {:induction false} RunConsistent(es: seq<Event>)
    requires RefreshFree(es)
    ensures Consistent(Run(es)) && CacheSound(Run(es))
  {
    if es == [] {
    } else {
      var w, e := Run(DropLast(es)), Last(es);
      RunConsistent(DropLast(es));
      StepSound(w, e);
      match e
      case Mount(user) => MountConsistent(w, user);
      case Respond(r, data) => RespondConsistent(w, r, data);
      case Deliver(k) => DeliverConsistent(w, k);
      case _ => LeaveConsistent(w, e);
    }
  }

  // ---------------------------------------------------------------- the cache on refresh-free runs

  /** Every answer to `u` so far came with data or failed. */
  ghost predicate NoneMissing(w: World, u: User) {
    forall i :: 0 <= i < |w.requests| && w.requests[i].user == u ==> w.requests[i].result != Some(Missing)
  }

  /** No entry of `u` is ever lost: its requests are still held, and what a waiter for it waits for
      is what the cache holds. */
  ghost predicate Kept(w: World, u: User) {
    && (u in w.cache ==> Cached(w, u))
    && (forall r: nat :: r < |w.requests| && w.requests[r].user == u ==> Holds(w, r))
    && (forall k: nat :: k < |w.waiters| && w.waiters[k].user == u ==> WaiterAgrees(w, k))
  }

  ghost predicate WaiterAgrees(w: World, k: nat)
    requires k < |w.waiters|
  {
    var t := w.waiters[k];
    t.user in w.cache && (Outcome(w, t.promise).Some? ==> w.cache[t.user] == Value(Outcome(w, t.promise).value))
  }

  lemma RespondKept(w: World, u: User, r: nat, data: Data)
    requires Consistent(w) && Kept(w, u) && NoneMissing(Step(w, Respond(r, data)), u)
    ensures Kept(Step(w, Respond(r, data)), u)
  {
    var s := Step(w, Respond(r, data));
    if r < |w.requests| && w.requests[r].result.None? {
      assert s.requests[r].result == Some(data);
      forall q: nat | q < |s.requests| && s.requests[q].user == u ensures Holds(s, q) {
        assert Holds(w, q);
        assert w.requests[r].user == u ==> Holds(w, r);
      }
      forall k: nat | k < |s.waiters| && s.waiters[k].user == u ensures WaiterAgrees(s, k) {
        assert WaiterSound(w, k) && WaiterAgrees(w, k);
        assert w.requests[r].user == u ==> Holds(w, r);
        var p := w.waiters[k].promise;
        assert p.OfRequest? ==> Holds(w, p.req);
      }
    }
  }

  /** A new waiter's promise is the cached value or a request at hand. */
  lemma NewWaiter(w: World, e: Event, k: nat)
    requires CacheSound(w) && |w.waiters| <= k < |Step(w, e).waiters|
    ensures var s := Step(w, e); var t := s.waiters[k];
      if t.promise.OfRequest? then t.promise.req < |s.requests|
      else t.user in w.cache && w.cache[t.user] == Value(t.promise.data) && s.requests == w.requests
  {
    assert forall u :: u in w.cache ==> SlotSound(w.requests, u, w.cache[u]);
  }

  /** An old waiter keeps its promise. */
  lemma OldWaiter(w: World, e: Event, k: nat)
    requires k < |w.waiters|
    ensures k < |Step(w, e).waiters| && Step(w, e).waiters[k].promise == w.waiters[k].promise
    ensures Step(w, e).waiters[k].user == w.waiters[k].user
  {
  }

  /** What a step other than an answer or a refresh does to the slot and the requests of `u`. */
  lemma SlotStays(w: World, e: Event, u: User)
    requires !e.Refresh? && !e.Respond? && (u in w.cache ==> Cached(w, u))
    ensures var s := Step(w, e);
      && w.requests <= s.requests
      && (u in w.cache ==> u in s.cache && s.cache[u] == w.cache[u])
      && (forall r: nat :: |w.requests| <= r < |s.requests| && s.requests[r].user == u ==> u !in w.cache && Holds(s, r))
      && (u !in w.cache && u in s.cache ==> s.cache[u].Pending?)
  {
    var from, v := StepFetches(w, e);
  }

  /** A new waiter's promise settles to what the cache then holds. */
  lemma NewWaiterAgrees(w: World, e: Event, k: nat)
    requires CacheSound(w) && !e.Refresh? && |w.waiters| <= k < |Step(w, e).waiters|
    ensures WaiterAgrees(Step(w, e), k)
  {
    assert forall u :: u in w.cache ==> SlotSound(w.requests, u, w.cache[u]);
  }

  lemma OtherStepKept(w: World, u: User, e: Event)
    requires Consistent(w) && CacheSound(w) && Kept(w, u) && !e.Refresh? && !e.Respond?
    ensures Kept(Step(w, e), u)
  {
    var s := Step(w, e);
    SlotStays(w, e, u);
    forall r: nat | r < |s.requests| && s.requests[r].user == u ensures Holds(s, r) {
      assert r < |w.requests| ==> Holds(w, r);
    }
    forall k: nat | k < |s.waiters| && s.waiters[k].user == u ensures WaiterAgrees(s, k) {
      if k < |w.waiters| {
        OldWaiter(w, e, k);
        assert WaiterSound(w, k) && WaiterAgrees(w, k);
      } else {
        NewWaiterAgrees(w, e, k);
      }
    }
  }

  /** In every refresh-free run in which no answer to `u` lacks data, whatever other users are answered. */
  lemma {:induction false} RunKept(es: seq<Event>, u: User)
    requires RefreshFree(es) && NoneMissing(Run(es), u)
    ensures Kept(Run(es), u)
  {
    if es == [] {
    } else {
      var w, e := Run(DropLast(es)), Last(es);
      AnswersStay(w, e);
      RunConsistent(DropLast(es));
      RunKept(DropLast(es), u);
      if e.Respond? {
        RespondKept(w, u, e.req, e.data);
      } else {
        OtherStepKept(w, u, e);
      }
    }
  }

  /** No promise that has settled is still to be served. */
  ghost predicate Quiescent(w: World) {
    forall k: nat :: k < |w.waiters| && !w.waiters[k].delivered ==> Outcome(w, w.waiters[k].promise).None?
  }

  /** On refresh-free runs a mounted hook that is not loading shows exactly the cached profile of its
      current user, if no answer to that user lacks data, and nothing when it has no user. */
  lemma IdleHookShowsCache(es: seq<Event>, h: nat)
    requires RefreshFree(es) && h < |Run(es).hooks| && Run(es).hooks[h].mounted && !Run(es).hooks[h].loading
    requires var w := Run(es); var user := w.hooks[h].user; user.Some? ==> NoneMissing(w, user.value)
    ensures var w := Run(es); var hook := w.hooks[h];
      if hook.user.None? then hook.userInfo == Null
      else hook.user.value in w.cache && w.cache[hook.user.value] == Value(hook.userInfo)
  {
    var w := Run(es);
    RunConsistent(es);
    assert HookSound(w, h);
    if w.hooks[h].effect.Some? {
      RunKept(es, w.hooks[h].user.value);
      assert WaiterAgrees(w, w.hooks[h].effect.value);
    }
  }

  /** And once settled promises have been served it is loading exactly while the request for its
      user is unanswered. */
  lemma LoadingIffUnanswered(es: seq<Event>, h: nat)
    requires RefreshFree(es) && Quiescent(Run(es)) && h < |Run(es).hooks| && Run(es).hooks[h].mounted
    requires var w := Run(es); var user := w.hooks[h].user; user.Some? ==> NoneMissing(w, user.value)
    ensures var w := Run(es); var hook := w.hooks[h];
      hook.loading <==> hook.user.Some? && Outstanding(w, hook.user.value)
  {
    var w := Run(es);
    var hook := w.hooks[h];
    RunConsistent(es);
    assert HookSound(w, h);
    if hook.effect.Some? {
      var k, u := hook.effect.value, hook.user.value;
      RunKept(es, u);
      assert WaiterSound(w, k) && WaiterAgrees(w, k);
      if hook.loading {
        var r := w.waiters[k].promise.req;
        assert w.requests[r] == Request(u, None);
      } else {
        forall r: nat | r < |w.requests| ensures w.requests[r] != Request(u, None) {
          assert w.requests[r].user == u ==> Holds(w, r);
        }
      }
    }
  }

  // ---------------------------------------------------------------- cancelled effects

  /** A hook's effect is its own waiter, and an effect not cancelled is the current one of a mounted hook. */
  ghost predicate Owned(w: World) {
    && (forall h: nat :: h < |w.hooks| && w.hooks[h].effect.Some? ==> OwnEffect(w, h))
    && (forall k: nat :: k < |w.waiters| ==> OwnedWaiter(w, k))
  }

  ghost predicate OwnEffect(w: World, h: nat)
    requires h < |w.hooks| && w.hooks[h].effect.Some?
  {
    var k := w.hooks[h].effect.value;
    k < |w.waiters| && w.waiters[k].hook == h
  }

  ghost predicate OwnedWaiter(w: World, k: nat)
    requires k < |w.waiters|
  {
    var t := w.waiters[k];
    t.hook < |w.hooks| && (t.isEffect && !t.cancelled ==> w.hooks[t.hook].mounted && w.hooks[t.hook].effect == Some(k))
  }

  /** Hook `h` has no live effect. */
  ghost predicate Released(w: World, h: nat) {
    && (forall j: nat :: j < |w.hooks| && j != h && w.hooks[j].effect.Some? ==> OwnEffect(w, j))
    && (forall k: nat :: k < |w.waiters| ==>
          OwnedWaiter(w, k) && (w.waiters[k].hook == h && w.waiters[k].isEffect ==> w.waiters[k].cancelled))
  }

  lemma CleanupReleases(w: World, h: nat)
    requires Owned(w) && h < |w.hooks|
    ensures Released(Cleanup(w, h), h) && Cleanup(w, h).hooks == w.hooks
  {
    var c := Cleanup(w, h);
    assert w.hooks[h].effect.Some? ==> OwnEffect(w, h);
    forall k: nat | k < |c.waiters|
      ensures OwnedWaiter(c, k) && (c.waiters[k].hook == h && c.waiters[k].isEffect ==> c.waiters[k].cancelled)
    {
      assert OwnedWaiter(w, k);
    }
    forall j: nat | j < |c.hooks| && j != h && c.hooks[j].effect.Some? ensures OwnEffect(c, j) {
      assert OwnEffect(w, j);
    }
  }

  lemma ReleasedAnyHook(w: World, h: nat, hook: Hook)
    requires Released(w, h) && h < |w.hooks|
    ensures Released(w.(hooks := w.hooks[h := hook]), h)
  {
    var c := w.(hooks := w.hooks[h := hook]);
    forall k: nat | k < |c.waiters| ensures OwnedWaiter(c, k) {
      assert OwnedWaiter(w, k);
    }
    forall j: nat | j < |c.hooks| && j != h && c.hooks[j].effect.Some? ensures OwnEffect(c, j) {
      assert OwnEffect(w, j);
    }
  }

  lemma EffectOwned(w: World, h: nat)
    requires Released(w, h) && h < |w.hooks| && w.hooks[h].mounted
    ensures Owned(RunEffect(w, h))
  {
    var s := RunEffect(w, h);
    forall k: nat | k < |s.waiters| ensures OwnedWaiter(s, k) {
      assert k < |w.waiters| ==> OwnedWaiter(w, k);
    }
    forall j: nat | j < |s.hooks| && s.hooks[j].effect.Some? ensures OwnEffect(s, j) {
      assert j != h && w.hooks[j].effect.Some? ==> OwnEffect(w, j);
    }
  }

  lemma NewHookOwned(w: World, user: Option<User>)
    requires Owned(w)
    ensures Owned(Step(w, Mount(user)))
  {
    var c := w.(hooks := w.hooks + [Hook(true, user, Null, false, None)]);
    forall k: nat | k < |c.waiters| ensures OwnedWaiter(c, k) {
      assert OwnedWaiter(w, k);
    }
    forall j: nat | j < |w.hooks| && c.hooks[j].effect.Some? ensures OwnEffect(c, j) {
      assert OwnEffect(w, j);
    }
    EffectOwned(c, |w.hooks|);
  }

  lemma LeaveOwned(w: World, e: Event)
    requires Owned(w) && (e.ChangeUser? || e.Unmount?)
    ensures Owned(Step(w, e))
  {
    if e.hook < |w.hooks| && w.hooks[e.hook].mounted {
      var h := e.hook;
      CleanupReleases(w, h);
      var c := Cleanup(w, h);
      match e
      case ChangeUser(_, user) =>
        if w.hooks[h].user != user {
          ReleasedAnyHook(c, h, c.hooks[h].(user := user));
          EffectOwned(c.(hooks := c.hooks[h := c.hooks[h].(user := user)]), h);
        }
      case Unmount(_) =>
        ReleasedAnyHook(c, h, c.hooks[h].(mounted := false));
        assert w.hooks[h].effect.Some? ==> OwnEffect(w, h);
    }
  }

  /** Steps that end no effect: at most a refresh's waiter is new. */
  lemma StayOwned(w: World, e: Event)
    requires Owned(w) && (e.Refresh? || e.Respond? || e.Deliver?)
    ensures Owned(Step(w, e))
  {
    var s := Step(w, e);
    forall k: nat | k < |s.waiters| ensures OwnedWaiter(s, k) {
      assert k < |w.waiters| ==> OwnedWaiter(w, k);
    }
    forall j: nat | j < |s.hooks| && s.hooks[j].effect.Some? ensures OwnEffect(s, j) {
      assert OwnEffect(w, j);
    }
  }

  lemma {:induction false} RunOwned(es: seq<Event>)
    ensures Owned(Run(es))
  {
    if es == [] {
    } else {
      var w, e := Run(DropLast(es)), Last(es);
      RunOwned(DropLast(es));
      match e
      case Mount(user) => NewHookOwned(w, user);
      case ChangeUser(_, _) => LeaveOwned(w, e);
      case Unmount(_) => LeaveOwned(w, e);
      case _ => StayOwned(w, e);
    }
  }

  lemma EffectWaiters(w: World, e: Event, k: nat)
    requires !e.Refresh? && k < |Step(w, e).waiters|
    ensures Step(w, e).waiters[k].isEffect || (k < |w.waiters| && !w.waiters[k].isEffect)
  {
  }

  lemma {:induction false} OnlyEffects(es: seq<Event>, k: nat)
    requires RefreshFree(es) && k < |Run(es).waiters|
    ensures Run(es).waiters[k].isEffect
  {
    if es == [] {
    } else {
      var w := Run(DropLast(es));
      EffectWaiters(w, Last(es), k);
      if k < |w.waiters| {
        OnlyEffects(DropLast(es), k);
      }
    }
  }

  /** A cancelled effect never writes: in every run serving a promise changes a hook only for a
      refresh or as the live effect of that mounted hook, and without refreshes only as the latter. */
  lemma CancelledNeverWrites(es: seq<Event>, k: nat, h: nat)
    requires h < |Run(es).hooks| && Step(Run(es), Deliver(k)).hooks[h] != Run(es).hooks[h]
    ensures var w := Run(es);
      k < |w.waiters| && w.waiters[k].hook == h &&
      (w.waiters[k].isEffect || RefreshFree(es) ==>
         w.hooks[h].mounted && w.hooks[h].effect == Some(k) && !w.waiters[k].cancelled)
  {
    RunOwned(es);
    assert OwnedWaiter(Run(es), k);
    if RefreshFree(es) {
      OnlyEffects(es, k);
    }
  }

  // ---------------------------------------------------------------- unmounted hooks

  /** Hook `h` has never refreshed. */
  ghost predicate NeverRefreshes(es: seq<Event>, h: nat) {
    forall i :: 0 <= i < |es| && es[i].Refresh? ==> es[i].hook != h
  }

  lemma {:induction false} OwnEffectsOnly(es: seq<Event>, h: nat)
    requires NeverRefreshes(es, h)
    ensures forall k :: 0 <= k < |Run(es).waiters| && Run(es).waiters[k].hook == h ==> Run(es).waiters[k].isEffect
  {
    if es == [] {
    } else {
      OwnEffectsOnly(DropLast(es), h);
      WaitersAfter(Run(DropLast(es)), Last(es));
    }
  }

  lemma WaitersAfter(w: World, e: Event)
    ensures var s := Step(w, e);
      && |w.waiters| <= |s.waiters|
      && (forall k :: 0 <= k < |w.waiters| ==>
            s.waiters[k].hook == w.waiters[k].hook && s.waiters[k].isEffect == w.waiters[k].isEffect)
      && (forall k :: |w.waiters| <= k < |s.waiters| ==>
            s.waiters[k].isEffect || (e.Refresh? && s.waiters[k].hook == e.hook))
  {
  }

  /** A hook that is not mounted and has only effects' waiters is left alone by every step but its own refresh. */
  lemma UnmountedStays(w: World, e: Event, h: nat)
    requires Owned(w) && h < |w.hooks| && !w.hooks[h].mounted
    requires forall k :: 0 <= k < |w.waiters| && w.waiters[k].hook == h ==> w.waiters[k].isEffect
    requires e.Refresh? ==> e.hook != h
    ensures h < |Step(w, e).hooks| && Step(w, e).hooks[h] == w.hooks[h]
  {
    if e.Deliver? && e.waiter < |w.waiters| {
      assert OwnedWaiter(w, e.waiter);
    }
  }

  lemma UnmountOnly(w: World, h: nat)
    requires h < |w.hooks|
    ensures var s := Step(w, Unmount(h));
      |s.hooks| == |w.hooks| && !s.hooks[h].mounted
      && s.hooks[h].userInfo == w.hooks[h].userInfo && s.hooks[h].loading == w.hooks[h].loading
  {
  }

  lemma {:induction false} SilentSince(es: seq<Event>, n: nat, h: nat)
    requires n < |es| && es[n] == Unmount(h) && h < |Run(es[..n]).hooks| && NeverRefreshes(es, h)
    ensures var w := Run(es); var was := Run(es[..n]).hooks[h];
      h < |w.hooks| && !w.hooks[h].mounted && w.hooks[h].userInfo == was.userInfo && w.hooks[h].loading == was.loading
  {
    var front := DropLast(es);
    if n == |es| - 1 {
      assert es[..n] == front;
      UnmountOnly(Run(front), h);
    } else {
      assert es[..n] == front[..n];
      SilentSince(front, n, h);
      RunOwned(front);
      OwnEffectsOnly(front, h);
      UnmountedStays(Run(front), Last(es), h);
    }
  }

  /** Once a hook is unmounted, and unless it refreshes, nothing is written to it any more, whatever
      is answered and served, and no change of user reaches it: it fetches nothing. */
  lemma UnmountedIsSilent(es: seq<Event>, n: nat, h: nat, user: Option<User>)
    requires n < |es| && es[n] == Unmount(h) && h < |Run(es[..n]).hooks| && NeverRefreshes(es, h)
    ensures var w := Run(es); var was := Run(es[..n]).hooks[h];
      && h < |w.hooks| && w.hooks[h].userInfo == was.userInfo && w.hooks[h].loading == was.loading
      && Step(w, ChangeUser(h, user)).requests == w.requests && Step(w, ChangeUser(h, user)).cache == w.cache
  {
    SilentSince(es, n, h);
  }

  // ---------------------------------------------------------------- the module's state

  /** The module-level cache with the requests, continuations and hooks that use it. */
  class Profiles {
    var cache: map<User, Slot>
    var requests: seq<Request>
    var waiters: seq<Waiter>
    var hooks: seq<Hook>

    function Abs(): World
      reads this
    {
      World(cache, requests, waiters, hooks)
    }

    constructor ()
      ensures Abs() == INIT
    {
      cache, requests, waiters, hooks := map[], [], [], [];
    }

    method FetchUserProfile(userId: User) returns (promise: Promise)
      modifies this`cache, this`requests
      ensures (Abs(), promise) == Fetch(old(Abs()), userId)
    {
      if userId in cache && cache[userId] != Value(Missing) {
        match cache[userId]
        case Pending(r) => return OfRequest(r);
        case Value(d) => return Resolved(d);
      }
      promise := OfRequest(|requests|);
      requests := requests + [Request(userId, None)];
      cache := cache[userId := Pending(promise.req)];
    }

    method Effect(h: nat)
      requires h < |hooks|
      modifies this
      ensures Abs() == RunEffect(old(Abs()), h)
    {
      if hooks[h].user.None? {
        hooks := hooks[h := hooks[h].(userInfo := Null, loading := false, effect := None)];
        return;
      }
      var userId := hooks[h].user.value;
      hooks := hooks[h := hooks[h].(loading := true, effect := Some(|waiters|))];
      var promise := FetchUserProfile(userId);
      waiters := waiters + [Waiter(h, userId, promise, true, false, false)];
    }

    method Cancel(h: nat)
      requires h < |hooks|
      modifies this`waiters
      ensures Abs() == Cleanup(old(Abs()), h)
    {
      if hooks[h].effect.Some? && hooks[h].effect.value < |waiters| {
        var k := hooks[h].effect.value;
        waiters := waiters[k := waiters[k].(cancelled := true)];
      }
    }

    method MountHook(user: Option<User>)
      modifies this
      ensures Abs() == Step(old(Abs()), Mount(user))
    {
      hooks := hooks + [Hook(true, user, Null, false, None)];
      Effect(|hooks| - 1);
    }

    method SetUser(h: nat, user: Option<User>)
      modifies this
      ensures Abs() == Step(old(Abs()), ChangeUser(h, user))
    {
      if h < |hooks| && hooks[h].mounted && hooks[h].user != user {
        Cancel(h);
        hooks := hooks[h := hooks[h].(user := user)];
        Effect(h);
      }
    }

    method UnmountHook(h: nat)
      modifies this
      ensures Abs() == Step(old(Abs()), Unmount(h))
    {
      if h < |hooks| && hooks[h].mounted {
        Cancel(h);
        hooks := hooks[h := hooks[h].(mounted := false)];
      }
    }

    method RefreshProfile(h: nat, userId: User)
      modifies this
      ensures Abs() == Step(old(Abs()), Refresh(h, userId))
    {
      if h < |hooks| {
        cache := cache - {userId};
        hooks := hooks[h := hooks[h].(loading := true)];
        var promise := FetchUserProfile(userId);
        waiters := waiters + [Waiter(h, userId, promise, false, false, false)];
      }
    }

    /** A response settles its promise; the first continuation stores it in the cache. */
    method Settle(r: nat, data: Data)
      modifies this`requests, this`cache
      ensures Abs() == Step(old(Abs()), Respond(r, data))
    {
      if r < |requests| && requests[r].result.None? {
        cache := cache[requests[r].user := Value(data)];
        requests := requests[r := requests[r].(result := Some(data))];
      }
    }

    /** The continuation of an effect or a refresh. */
    method Serve(k: nat)
      modifies this
      ensures Abs() == Step(old(Abs()), Deliver(k))
    {
      if k < |waiters| && !waiters[k].delivered {
        var outcome := Outcome(Abs(), waiters[k].promise);
        if outcome.Some? {
          var waiter := waiters[k];
          waiters := waiters[k := waiter.(delivered := true)];
          if !(waiter.isEffect && waiter.cancelled) && waiter.hook < |hooks| {
            hooks := hooks[waiter.hook := hooks[waiter.hook].(userInfo := outcome.value, loading := false)];
          }
        }
      }
    }
  }
}
