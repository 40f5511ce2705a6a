/** What a `useUserProfile` hook shows compared with the shared cache: the request each shown profile
    came from, and exactly when an idle hook agrees with the cache. */
module ShownProfiles {
  import opened Sequences
  import opened UserProfiles

  // ---------------------------------------------------------------- what an idle hook shows

  /** `e` is the answer to a request for `u`. */
  predicate Answers(w: World, e: Event, u: User) {
    e.Respond? && e.req < |w.requests| && w.requests[e.req] == Request(u, None)
  }

  /** The request for `u` that was answered last. */
  function LastAnswered(es: seq<Event>, u: User): Option<nat> {
    if es == [] then None
    else if Answers(Run(DropLast(es)), Last(es), u) then Some(Last(es).req)
    else LastAnswered(DropLast(es), u)
  }

  /** The request whose answer waiter `k` waits for: the pending one it shares, or the one whose
      answer was cached when it fetched. */
  function SourceOf(es: seq<Event>, k: nat): Option<nat> {
    if es == [] then None
    else if k < |Run(DropLast(es)).waiters| then SourceOf(DropLast(es), k)
    else if k >= |Run(es).waiters| then None
    else if Run(es).waiters[k].promise.OfRequest? then Some(Run(es).waiters[k].promise.req)
    else LastAnswered(DropLast(es), Run(es).waiters[k].user)
  }

  /** `e` writes the outcome of a promise to hook `h`. */
  predicate Serves(w: World, e: Event, h: nat) {
    && e.Deliver? && e.waiter < |w.waiters| && !w.waiters[e.waiter].delivered
    && Outcome(w, w.waiters[e.waiter].promise).Some?
    && !(w.waiters[e.waiter].isEffect && w.waiters[e.waiter].cancelled)
    && w.waiters[e.waiter].hook == h < |w.hooks|
  }

  /** `e` mounts hook `h` or takes its user away, so that it shows nothing. */
  predicate Empties(w: World, e: Event, h: nat) {
    || (e.Mount? && h == |w.hooks|)
    || (e.ChangeUser? && e.hook == h < |w.hooks| && w.hooks[h].mounted && w.hooks[h].user != e.user && e.user.None?)
  }

  /** The request whose answer hook `h` shows, if it has been served since it was last emptied. */
  function ShownFrom(es: seq<Event>, h: nat): Option<nat> {
    if es == [] then None
    else
      var w, e := Run(DropLast(es)), Last(es);
      if Empties(w, e, h) then None
      else if Serves(w, e, h) then SourceOf(DropLast(es), e.waiter)
      else ShownFrom(DropLast(es), h)
  }

  ghost predicate SlotTraced(es: seq<Event>, u: User)
    requires u in Run(es).cache
  {
    var w := Run(es);
    w.cache[u].Value? ==>
      && LastAnswered(es, u).Some? && LastAnswered(es, u).value < |w.requests|
      && w.requests[LastAnswered(es, u).value] == Request(u, Some(w.cache[u].data))
  }

  ghost predicate WaiterTraced(es: seq<Event>, k: nat)
    requires k < |Run(es).waiters|
  {
    var w, r := Run(es), SourceOf(es, k);
    && r.Some? && r.value < |w.requests|
    && Outcome(w, w.waiters[k].promise) == w.requests[r.value].result
    && (w.waiters[k].promise.OfRequest? ==> w.waiters[k].promise.req == r.value)
  }

  /** A hook shows the answer its content was traced to; only a hook without a user is idle unserved. */
  ghost predicate HookTraced(es: seq<Event>, h: nat)
    requires h < |Run(es).hooks|
  {
    var w, r := Run(es), ShownFrom(es, h);
    && (r.None? ==> w.hooks[h].userInfo == Null && (w.hooks[h].loading || w.hooks[h].user.None?))
    && (r.Some? ==> r.value < |w.requests| && w.requests[r.value].result == Some(w.hooks[h].userInfo))
  }

  ghost predicate Traced(es: seq<Event>) {
    && (forall u :: u in Run(es).cache ==> SlotTraced(es, u))
    && (forall k: nat :: k < |Run(es).waiters| ==> WaiterTraced(es, k))
    && (forall h: nat :: h < |Run(es).hooks| ==> HookTraced(es, h))
  }

  /** A slot after a step is the slot before it, a new pending request or the answer just given. */
  lemma SlotAfter(w: World, e: Event, u: User)
    requires u in Step(w, e).cache && Step(w, e).cache[u].Value?
    ensures if Answers(w, e, u)
            then Step(w, e).cache[u] == Value(e.data) && Step(w, e).requests[e.req] == Request(u, Some(e.data))
            else u in w.cache && Step(w, e).cache[u] == w.cache[u]
  {
    var from, v := StepFetches(w, e);
  }

  lemma StepSlotTraced(es: seq<Event>, u: User)
    requires es != [] && u in Run(es).cache && (u in Run(DropLast(es)).cache ==> SlotTraced(DropLast(es), u))
    ensures SlotTraced(es, u)
  {
    var w, e := Run(DropLast(es)), Last(es);
    if Run(es).cache[u].Value? {
      SlotAfter(w, e, u);
      AnswersStay(w, e);
    }
  }

  lemma StepWaiterTraced(es: seq<Event>, k: nat)
    requires es != [] && k < |Run(es).waiters| && Traced(DropLast(es)) && CacheSound(Run(DropLast(es)))
    ensures WaiterTraced(es, k)
  {
    var w, e := Run(DropLast(es)), Last(es);
    AnswersStay(w, e);
    if k < |w.waiters| {
      OldWaiter(w, e, k);
      assert WaiterTraced(DropLast(es), k);
    } else {
      NewWaiter(w, e, k);
      var u := Run(es).waiters[k].user;
      assert u in w.cache ==> SlotTraced(DropLast(es), u);
    }
  }

  /** What a step does to a hook it neither serves nor empties. */
  lemma HookAfter(w: World, e: Event, h: nat)
    requires h < |Step(w, e).hooks|
    ensures var s := Step(w, e);
      if Empties(w, e, h) then s.hooks[h].userInfo == Null && (s.hooks[h].loading || s.hooks[h].user.None?)
      else if Serves(w, e, h) then Outcome(w, w.waiters[e.waiter].promise) == Some(s.hooks[h].userInfo)
      else (h < |w.hooks| && s.hooks[h].userInfo == w.hooks[h].userInfo
        && (s.hooks[h].loading || (s.hooks[h].user == w.hooks[h].user && !w.hooks[h].loading)))
  {
  }

  lemma StepHookTraced(es: seq<Event>, h: nat)
    requires es != [] && h < |Run(es).hooks| && Traced(DropLast(es))
    ensures HookTraced(es, h)
  {
    var w, e := Run(DropLast(es)), Last(es);
    AnswersStay(w, e);
    HookAfter(w, e, h);
    if Serves(w, e, h) {
      assert WaiterTraced(DropLast(es), e.waiter);
    } else if !Empties(w, e, h) {
      assert HookTraced(DropLast(es), h);
    }
  }

  lemma {:induction false} RunTraced(es: seq<Event>)
    ensures Traced(es)
  {
    if es == [] {
    } else {
      RunTraced(DropLast(es));
      RunSound(DropLast(es));
      forall u | u in Run(es).cache ensures SlotTraced(es, u) {
        StepSlotTraced(es, u);
      }
      forall k: nat | k < |Run(es).waiters| ensures WaiterTraced(es, k) {
        StepWaiterTraced(es, k);
      }
      forall h: nat | h < |Run(es).hooks| ensures HookTraced(es, h) {
        StepHookTraced(es, h);
      }
    }
  }

  /** Hook `h` shows what the cache holds for user `u`. */
  predicate ShowsCached(w: World, h: nat, u: User)
    requires h < |w.hooks|
  {
    u in w.cache && w.cache[u] == Value(w.hooks[h].userInfo)
  }

  predicate AnswerCached(w: World, u: User) {
    u in w.cache && w.cache[u].Value?
  }

  predicate Idle(w: World, h: nat, u: User) {
    h < |w.hooks| && w.hooks[h].user == Some(u) && !w.hooks[h].loading
  }

  ghost predicate Answered(w: World, r: Option<nat>) {
    r.Some? && r.value < |w.requests| && w.requests[r.value].result.Some?
  }

  /** In every run, refreshes or not, an idle hook shows the cached profile of its user exactly when
      an answer is cached and the request it was served from was answered alike to the last. */
  lemma IdleHookAgreesIff(es: seq<Event>, h: nat, u: User)
    requires Idle(Run(es), h, u)
    ensures var w := Run(es); var shown, last := ShownFrom(es, h), LastAnswered(es, u);
      && Answered(w, shown) && (AnswerCached(w, u) ==> Answered(w, last) && w.requests[last.value].user == u)
      && (ShowsCached(w, h, u) <==>
            AnswerCached(w, u) && w.requests[shown.value].result == w.requests[last.value].result)
  {
    RunTraced(es);
    assert HookTraced(es, h);
    assert u in Run(es).cache ==> SlotTraced(es, u);
  }

  // ---------------------------------------------------------------- other answers to the same requests

  /** All that steps depend on: which data is missing. */
  function BlankData(d: Data): Data {
    if d.Missing? then Missing else Null
  }

  function BlankResult(r: Option<Data>): Option<Data> {
    if r.Some? then Some(BlankData(r.value)) else None
  }

  function BlankRequest(): Request -> Request {
    (q: Request) => q.(result := BlankResult(q.result))
  }

  function BlankSlot(s: Slot): Slot {
    if s.Value? then Value(BlankData(s.data)) else s
  }

  function BlankPromise(p: Promise): Promise {
    if p.Resolved? then Resolved(BlankData(p.data)) else p
  }

  function BlankWaiter(): Waiter -> Waiter {
    (t: Waiter) => t.(promise := BlankPromise(t.promise))
  }

  function BlankHook(): Hook -> Hook {
    (k: Hook) => k.(userInfo := BlankData(k.userInfo))
  }

  function BlankCache(cache: map<User, Slot>): map<User, Slot> {
    map u | u in cache :: BlankSlot(cache[u])
  }

  function Shape(w: World): World {
    World(
      BlankCache(w.cache), Map(BlankRequest(), w.requests), Map(BlankWaiter(), w.waiters), Map(BlankHook(), w.hooks))
  }

  function BlankEvent(): Event -> Event {
    (e: Event) => if e.Respond? then e.(data := BlankData(e.data)) else e
  }

  lemma ShapeFetch(w: World, u: User)
    ensures Fetch(Shape(w), u) == (Shape(Fetch(w, u).0), BlankPromise(Fetch(w, u).1))
  {
    var (f, p) := Fetch(w, u);
    assert Cached(Shape(w), u) <==> Cached(w, u);
    if !Cached(w, u) {
      assert Shape(f).requests == Shape(w).requests + [Request(u, None)];
      assert Shape(f).cache == Shape(w).cache[u := Pending(|w.requests|)];
    }
  }

  lemma ShapeAwait(w: World, h: nat, u: User, isEffect: bool)
    ensures Await(Shape(w), h, u, isEffect) == Shape(Await(w, h, u, isEffect))
  {
    ShapeFetch(w, u);
    var (f, p) := Fetch(w, u);
    var t := Waiter(h, u, p, isEffect, false, false);
    assert Map(BlankWaiter(), f.waiters + [t]) == Map(BlankWaiter(), f.waiters) + [BlankWaiter()(t)];
  }

  lemma ShapeWithHook(w: World, h: nat, hook: Hook)
    requires h < |w.hooks|
    ensures Shape(w.(hooks := w.hooks[h := hook])) == Shape(w).(hooks := Shape(w).hooks[h := BlankHook()(hook)])
  {
    assert Map(BlankHook(), w.hooks[h := hook]) == Map(BlankHook(), w.hooks)[h := BlankHook()(hook)];
  }

  lemma ShapeWithWaiter(w: World, k: nat, t: Waiter)
    requires k < |w.waiters|
    ensures Shape(w.(waiters := w.waiters[k := t])) == Shape(w).(waiters := Shape(w).waiters[k := BlankWaiter()(t)])
  {
    assert Map(BlankWaiter(), w.waiters[k := t]) == Map(BlankWaiter(), w.waiters)[k := BlankWaiter()(t)];
  }

  lemma ShapeRunEffect(w: World, h: nat)
    requires h < |w.hooks|
    ensures RunEffect(Shape(w), h) == Shape(RunEffect(w, h))
  {
    var hook := w.hooks[h];
    match hook.user
    case None =>
      ShapeWithHook(w, h, hook.(userInfo := Null, loading := false, effect := None));
    case Some(u) =>
      var loading := hook.(loading := true, effect := Some(|w.waiters|));
      ShapeWithHook(w, h, loading);
      ShapeAwait(w.(hooks := w.hooks[h := loading]), h, u, true);
  }

  lemma ShapeCleanup(w: World, h: nat)
    requires h < |w.hooks|
    ensures Cleanup(Shape(w), h) == Shape(Cleanup(w, h)) && Cleanup(w, h).hooks == w.hooks
  {
    var e := w.hooks[h].effect;
    if e.Some? && e.value < |w.waiters| {
      ShapeWithWaiter(w, e.value, w.waiters[e.value].(cancelled := true));
    }
  }

  lemma ShapeOutcome(w: World, p: Promise)
    ensures Outcome(Shape(w), BlankPromise(p)) == BlankResult(Outcome(w, p))
  {
  }

  lemma ShapeLeave(w: World, e: Event)
    requires e.ChangeUser? || e.Unmount?
    ensures Step(Shape(w), e) == Shape(Step(w, e))
  {
    if e.hook < |w.hooks| && w.hooks[e.hook].mounted {
      var h := e.hook;
      ShapeCleanup(w, h);
      var c := Cleanup(w, h);
      match e
      case ChangeUser(_, user) =>
        if w.hooks[h].user != user {
          ShapeWithHook(c, h, c.hooks[h].(user := user));
          ShapeRunEffect(c.(hooks := c.hooks[h := c.hooks[h].(user := user)]), h);
        }
      case Unmount(_) =>
        ShapeWithHook(c, h, c.hooks[h].(mounted := false));
    }
  }

  lemma ShapeFetching(w: World, e: Event)
    requires e.Mount? || e.Refresh?
    ensures Step(Shape(w), e) == Shape(Step(w, e))
  {
    match e
    case Mount(user) =>
      var c := w.(hooks := w.hooks + [Hook(true, user, Null, false, None)]);
      assert Shape(c).hooks == Shape(w).hooks + [Hook(true, user, Null, false, None)];
      ShapeRunEffect(c, |w.hooks|);
    case Refresh(h, u) =>
      if h < |w.hooks| {
        ShapeWithHook(w, h, w.hooks[h].(loading := true));
        var c := w.(cache := w.cache - {u}, hooks := w.hooks[h := w.hooks[h].(loading := true)]);
        assert Shape(c).cache == Shape(w).cache - {u};
        ShapeAwait(c, h, u, false);
      }
  }

  lemma ShapeRespond(w: World, r: nat, data: Data)
    ensures Step(Shape(w), Respond(r, BlankData(data))) == Shape(Step(w, Respond(r, data)))
  {
    if r < |w.requests| && w.requests[r].result.None? {
      var u := w.requests[r].user;
      assert BlankCache(w.cache[u := Value(data)]) == BlankCache(w.cache)[u := Value(BlankData(data))];
      assert Map(BlankRequest(), w.requests[r := Request(u, Some(data))])
          == Map(BlankRequest(), w.requests)[r := Request(u, Some(BlankData(data)))];
    }
  }

  lemma ShapeDeliver(w: World, k: nat)
    ensures Step(Shape(w), Deliver(k)) == Shape(Step(w, Deliver(k)))
  {
    if k < |w.waiters| {
      var t := w.waiters[k];
      ShapeOutcome(w, t.promise);
      if !t.delivered && Outcome(w, t.promise).Some? {
        ShapeWithWaiter(w, k, t.(delivered := true));
        if !(t.isEffect && t.cancelled) && t.hook < |w.hooks| {
          ShapeWithHook(w.(waiters := w.waiters[k := t.(delivered := true)]), t.hook,
            w.hooks[t.hook].(userInfo := Outcome(w, t.promise).value, loading := false));
        }
      }
    }
  }

  lemma ShapeStep(w: World, e: Event)
    ensures Step(Shape(w), BlankEvent()(e)) == Shape(Step(w, e))
  {
    match e
    case Mount(_) => ShapeFetching(w, e);
    case Refresh(_, _) => ShapeFetching(w, e);
    case Respond(r, data) => ShapeRespond(w, r, data);
    case Deliver(k) => ShapeDeliver(w, k);
    case _ => ShapeLeave(w, e);
  }

  lemma {:induction false} ShapeRun(es: seq<Event>)
    ensures Run(Map(BlankEvent(), es)) == Shape(Run(es))
  {
    if es == [] {
      assert Shape(INIT) == INIT;
    } else {
      ShapeRun(DropLast(es));
      ShapeStep(Run(DropLast(es)), Last(es));
      assert DropLast(Map(BlankEvent(), es)) == Map(BlankEvent(), DropLast(es));
    }
  }

  /** The shape decides which requests were answered, awaited and shown. */
  lemma {:induction false} ShapeLastAnswered(es: seq<Event>, u: User)
    ensures LastAnswered(Map(BlankEvent(), es), u) == LastAnswered(es, u)
  {
    if es == [] {
    } else {
      ShapeRun(DropLast(es));
      ShapeLastAnswered(DropLast(es), u);
      assert DropLast(Map(BlankEvent(), es)) == Map(BlankEvent(), DropLast(es));
    }
  }

  lemma {:induction false} ShapeSource(es: seq<Event>, k: nat)
    ensures SourceOf(Map(BlankEvent(), es), k) == SourceOf(es, k)
  {
    if es == [] {
    } else {
      ShapeRun(es);
      ShapeRun(DropLast(es));
      ShapeSource(DropLast(es), k);
      assert DropLast(Map(BlankEvent(), es)) == Map(BlankEvent(), DropLast(es));
      if |Run(DropLast(es)).waiters| <= k < |Run(es).waiters| {
        ShapeLastAnswered(DropLast(es), Run(es).waiters[k].user);
      }
    }
  }

  lemma ShapeServes(w: World, e: Event, h: nat)
    ensures Serves(Shape(w), BlankEvent()(e), h) <==> Serves(w, e, h)
    ensures Empties(Shape(w), BlankEvent()(e), h) <==> Empties(w, e, h)
  {
    if e.Deliver? && e.waiter < |w.waiters| {
      ShapeOutcome(w, w.waiters[e.waiter].promise);
    }
  }

  lemma {:induction false} ShapeShown(es: seq<Event>, h: nat)
    ensures ShownFrom(Map(BlankEvent(), es), h) == ShownFrom(es, h)
  {
    if es == [] {
    } else {
      var w, e := Run(DropLast(es)), Last(es);
      ShapeRun(DropLast(es));
      ShapeShown(DropLast(es), h);
      ShapeServes(w, e, h);
      if Serves(w, e, h) {
        ShapeSource(DropLast(es), e.waiter);
      }
      assert DropLast(Map(BlankEvent(), es)) == Map(BlankEvent(), DropLast(es));
    }
  }

  /** The same event, request `r` being answered with `profiles(r)` unless its data is missing. */
  function Reanswer(profiles: nat -> string): Event -> Event {
    (e: Event) => if e.Respond? && !e.data.Missing? then e.(data := Profile(profiles(e.req))) else e
  }

  lemma ReanswerKeepsShape(profiles: nat -> string, es: seq<Event>, h: nat, u: User)
    ensures var fs := Map(Reanswer(profiles), es);
      && Shape(Run(fs)) == Shape(Run(es))
      && LastAnswered(fs, u) == LastAnswered(es, u) && ShownFrom(fs, h) == ShownFrom(es, h)
  {
    var fs := Map(Reanswer(profiles), es);
    assert Map(BlankEvent(), fs) == Map(BlankEvent(), es);
    ShapeRun(es);
    ShapeRun(fs);
    ShapeLastAnswered(es, u);
    ShapeLastAnswered(fs, u);
    ShapeShown(es, h);
    ShapeShown(fs, h);
  }

  /** A text that tells which request it answers. */
  function Tag(r: nat): (t: string)
    ensures |t| == r
  {
    seq(r, i => 'x')
  }

  ghost predicate Tagged(w: World) {
    forall r: nat :: r < |w.requests| && w.requests[r].result.Some? ==>
      w.requests[r].result.value in {Missing, Profile(Tag(r))}
  }

  lemma {:induction false} TaggedRun(es: seq<Event>)
    ensures Tagged(Run(Map(Reanswer(Tag), es)))
  {
    if es == [] {
    } else {
      var fs := Map(Reanswer(Tag), es);
      TaggedRun(DropLast(es));
      assert DropLast(fs) == Map(Reanswer(Tag), DropLast(es));
      TaggedStep(Run(DropLast(fs)), Last(fs));
    }
  }

  lemma TaggedStep(w: World, e: Event)
    requires Tagged(w) && (e.Respond? ==> e.data in {Missing, Profile(Tag(e.req))})
    ensures Tagged(Step(w, e))
  {
    var from, v := StepFetches(w, e);
  }

  ghost predicate BothMissing(w: World, r: Option<nat>, q: Option<nat>) {
    Answered(w, r) && Answered(w, q) && w.requests[r.value].result == w.requests[q.value].result == Some(Missing)
  }

  /** The condition under which an idle hook is sure to agree with the cache: an answer is cached, and
      the hook was last served from the request answered last for its user. */
  ghost predicate UpToDate(es: seq<Event>, h: nat, u: User) {
    && AnswerCached(Run(es), u)
    && (ShownFrom(es, h) == LastAnswered(es, u) || BothMissing(Run(es), ShownFrom(es, h), LastAnswered(es, u)))
  }

  lemma ReanswerKeepsUpToDate(profiles: nat -> string, es: seq<Event>, h: nat, u: User)
    ensures UpToDate(Map(Reanswer(profiles), es), h, u) <==> UpToDate(es, h, u)
    ensures Idle(Run(Map(Reanswer(profiles), es)), h, u) <==> Idle(Run(es), h, u)
  {
    ReanswerKeepsShape(profiles, es, h, u);
    var w, v := Run(es), Run(Map(Reanswer(profiles), es));
    SameShape(w, v, h, u);
    SameShapeMissing(w, v, ShownFrom(es, h), LastAnswered(es, u));
  }

  lemma SameShape(w: World, v: World, h: nat, u: User)
    requires Shape(w) == Shape(v)
    ensures AnswerCached(w, u) <==> AnswerCached(v, u)
    ensures Idle(w, h, u) <==> Idle(v, h, u)
  {
    assert AnswerCached(w, u) <==> AnswerCached(Shape(w), u);
    assert AnswerCached(v, u) <==> AnswerCached(Shape(v), u);
    assert Idle(w, h, u) <==> Idle(Shape(w), h, u);
    assert Idle(v, h, u) <==> Idle(Shape(v), h, u);
  }

  lemma ShapeBothMissing(w: World, r: Option<nat>, q: Option<nat>)
    ensures BothMissing(w, r, q) <==> BothMissing(Shape(w), r, q)
  {
  }

  lemma SameShapeMissing(w: World, v: World, r: Option<nat>, q: Option<nat>)
    requires Shape(w) == Shape(v)
    ensures BothMissing(w, r, q) <==> BothMissing(v, r, q)
  {
    ShapeBothMissing(w, r, q);
    ShapeBothMissing(v, r, q);
  }

  /** An up-to-date idle hook shows the cached profile. */
  lemma UpToDateAgrees(es: seq<Event>, h: nat, u: User)
    requires Idle(Run(es), h, u) && UpToDate(es, h, u)
    ensures ShowsCached(Run(es), h, u)
  {
    IdleHookAgreesIff(es, h, u);
  }

  /** With tagged answers only an up-to-date one does. */
  lemma TaggedAgreesUpToDate(es: seq<Event>, h: nat, u: User)
    requires Idle(Run(es), h, u) && Tagged(Run(es)) && ShowsCached(Run(es), h, u)
    ensures UpToDate(es, h, u)
  {
    IdleHookAgreesIff(es, h, u);
    var w, r, q := Run(es), ShownFrom(es, h).value, LastAnswered(es, u).value;
    assert w.requests[r].result.value in {Missing, Profile(Tag(r))};
    assert w.requests[q].result.value in {Missing, Profile(Tag(q))};
  }

  /** In every run, an idle hook shows the cached profile of its user whatever profiles the requests
      are answered with exactly when an answer is cached and the hook was last served from the
      request answered last (or neither answer has data): no other request of that user has been
      answered since, and the cache has not gone on to a new one. */
  lemma IdleHookAlwaysAgreesIff(es: seq<Event>, h: nat, u: User)
    requires Idle(Run(es), h, u)
    ensures (forall profiles: nat -> string ::
              h < |Run(Map(Reanswer(profiles), es)).hooks| && ShowsCached(Run(Map(Reanswer(profiles), es)), h, u))
       <==> UpToDate(es, h, u)
  {
    forall profiles: nat -> string ensures h < |Run(Map(Reanswer(profiles), es)).hooks| {
      ReanswerKeepsUpToDate(profiles, es, h, u);
    }
    if UpToDate(es, h, u) {
      forall profiles: nat -> string ensures ShowsCached(Run(Map(Reanswer(profiles), es)), h, u) {
        ReanswerKeepsUpToDate(profiles, es, h, u);
        UpToDateAgrees(Map(Reanswer(profiles), es), h, u);
      }
    } else {
      var fs := Map(Reanswer(Tag), es);
      ReanswerKeepsUpToDate(Tag, es, h, u);
      TaggedRun(es);
      if ShowsCached(Run(fs), h, u) {
        TaggedAgreesUpToDate(fs, h, u);
      }
    }
  }

  // ---------------------------------------------------------------- runs that disagree

  const FIRST := Waiter(0, 1, OfRequest(0), true, false, true)
  const SECOND := Waiter(0, 1, OfRequest(1), false, false, false)

  /** One hook of user 1 that has been served and then refreshes its profile. */
  lemma ServedThenRefresh() returns (es: seq<Event>)
    ensures QuietRefreshes(es)
    ensures Run(es) == World(
      map[1 := Pending(1)],
      [Request(1, Some(Profile("one"))), Request(1, None)],
      [FIRST, SECOND],
      [Hook(true, Some(1), Profile("one"), true, Some(0))])
  {
    var e1 := [Mount(Some(1))];
    var e2 := e1 + [Respond(0, Profile("one"))];
    var e3 := e2 + [Deliver(0)];
    es := e3 + [Refresh(0, 1)];
    OneMounted(1);
    AnswerServed(Run(e1), 0, Profile("one"), 0);
    QuietSnoc([], Mount(Some(1)));
    QuietSnoc(e1, Respond(0, Profile("one")));
    QuietSnoc(e2, Deliver(0));
    assert Run(e3) == World(
      map[1 := Value(Profile("one"))], [Request(1, Some(Profile("one")))], [FIRST],
      [Hook(true, Some(1), Profile("one"), false, Some(0))]);
    assert !Outstanding(Run(e3), 1);
    RefreshAsksAgain(Run(e3), 0, 1);
    QuietSnoc(e3, Refresh(0, 1));
  }

  /** It then changes to user 2. */
  lemma RefreshThenChange() returns (es: seq<Event>)
    ensures QuietRefreshes(es)
    ensures Run(es) == World(
      map[1 := Pending(1), 2 := Pending(2)],
      [Request(1, Some(Profile("one"))), Request(1, None), Request(2, None)],
      [FIRST.(cancelled := true), SECOND, Waiter(0, 2, OfRequest(2), true, false, false)],
      [Hook(true, Some(2), Profile("one"), true, Some(2))])
  {
    var e4 := ServedThenRefresh();
    es := e4 + [ChangeUser(0, Some(2))];
    QuietSnoc(e4, ChangeUser(0, Some(2)));
    var w4 := Run(e4);
    assert Cleanup(w4, 0) == w4.(waiters := [FIRST.(cancelled := true), SECOND]);
  }

  lemma QuietSnoc(es: seq<Event>, e: Event)
    requires QuietRefreshes(es) && (e.Refresh? ==> !Outstanding(Run(es), e.of))
    ensures QuietRefreshes(es + [e]) && Run(es + [e]) == Step(Run(es), e)
    ensures NobodyLeaves(es) && !e.ChangeUser? && !e.Unmount? ==> NobodyLeaves(es + [e])
  {
    assert DropLast(es + [e]) == es;
  }

  /** A refresh does break this, even one that finds nothing unanswered: its answer is shown although
      the hook has meanwhile changed user and is no longer loading. */
  lemma RefreshShowsFormerUser() returns (es: seq<Event>)
    ensures QuietRefreshes(es)
    ensures var w := Run(es);
      |w.hooks| == 1 && w.hooks[0] == Hook(true, Some(2), Profile("one"), false, Some(2))
      && 2 in w.cache && w.cache[2] == Value(Profile("two"))
  {
    var e4 := RefreshThenChange();
    var e5 := e4 + [Respond(2, Profile("two"))];
    var e6 := e5 + [Deliver(2)];
    var e7 := e6 + [Respond(1, Profile("one"))];
    es := e7 + [Deliver(1)];
    AnswerServed(Run(e4), 2, Profile("two"), 2);
    assert Run(e6) == Step(Step(Run(e4), Respond(2, Profile("two"))), Deliver(2));
    AnswerServed(Run(e6), 1, Profile("one"), 1);
    assert Run(es) == Step(Step(Run(e6), Respond(1, Profile("one"))), Deliver(1));
    assert QuietRefreshes(e5) && QuietRefreshes(e6) && QuietRefreshes(e7);
  }

  /** An answer that arrives for a live waiter is cached and shown. */
  lemma AnswerServed(w: World, r: nat, data: Data, k: nat)
    requires r < |w.requests| && w.requests[r].result.None?
    requires k < |w.waiters| && !w.waiters[k].delivered && !w.waiters[k].cancelled
    requires w.waiters[k].promise == OfRequest(r) && w.waiters[k].hook < |w.hooks|
    ensures var s := Step(Step(w, Respond(r, data)), Deliver(k)); var h := w.waiters[k].hook;
      && s.hooks == w.hooks[h := w.hooks[h].(userInfo := data, loading := false)]
      && s.cache == w.cache[w.requests[r].user := Value(data)]
      && s.requests == w.requests[r := Request(w.requests[r].user, Some(data))]
      && s.waiters == w.waiters[k := w.waiters[k].(delivered := true)]
  {
  }

  ghost predicate NobodyLeaves(es: seq<Event>) {
    forall i :: 0 <= i < |es| ==> !es[i].ChangeUser? && !es[i].Unmount?
  }

  lemma OneMounted(u: User)
    ensures Run([Mount(Some(u))]) == World(
      map[u := Pending(0)], [Request(u, None)], [Waiter(0, u, OfRequest(0), true, false, false)],
      [Hook(true, Some(u), Null, true, Some(0))])
  {
    assert DropLast([Mount(Some(u))]) == [];
    assert Run([]) == INIT;
  }

  /** Two hooks of user `u`, both served the answer `first`. */
  lemma TwoServed(u: User, first: Data) returns (es: seq<Event>)
    ensures QuietRefreshes(es) && NobodyLeaves(es)
    ensures Run(es) == Served(u, first)
  {
    var e1 := [Mount(Some(u))];
    var e2 := e1 + [Mount(Some(u))];
    var e3 := e2 + [Respond(0, first)];
    var e4 := e3 + [Deliver(0)];
    es := e4 + [Deliver(1)];
    OneMounted(u);
    assert Run(e2) == Step(Run(e1), Mount(Some(u)));
    assert Run(e2) == World(
      map[u := Pending(0)], [Request(u, None)],
      [Waiter(0, u, OfRequest(0), true, false, false), Waiter(1, u, OfRequest(0), true, false, false)],
      [Hook(true, Some(u), Null, true, Some(0)), Hook(true, Some(u), Null, true, Some(1))]);
    AnswerServed(Run(e2), 0, first, 0);
    assert Run(e4) == Step(Step(Run(e2), Respond(0, first)), Deliver(0));
    QuietSnoc([], Mount(Some(u)));
    QuietSnoc(e1, Mount(Some(u)));
    QuietSnoc(e2, Respond(0, first));
    QuietSnoc(e3, Deliver(0));
    QuietSnoc(e4, Deliver(1));
  }

  /** One hook's refresh leaves the others behind: with no user change, no unmount and nothing left
      pending, a second hook goes on showing the old answer while the cache holds the new one. */
  lemma SiblingStaysBehind(u: User, first: Data, second: Data) returns (es: seq<Event>)
    requires first != second
    ensures QuietRefreshes(es) && NobodyLeaves(es)
    ensures var w := Run(es);
      && Idle(w, 1, u) && w.hooks[1].mounted && w.hooks[1].userInfo == first && w.cache == map[u := Value(second)]
      && Quiescent(w) && !Outstanding(w, u) && !ShowsCached(w, 1, u)
  {
    var e5 := TwoServed(u, first);
    var e6 := e5 + [Refresh(0, u)];
    var e7 := e6 + [Respond(1, second)];
    es := e7 + [Deliver(2)];
    QuietSnoc(e5, Refresh(0, u));
    QuietSnoc(e6, Respond(1, second));
    QuietSnoc(e7, Deliver(2));
    QuietRefreshAnswered(u, first, second);
  }

  function Served(u: User, first: Data): World {
    World(
      map[u := Value(first)], [Request(u, Some(first))],
      [Waiter(0, u, OfRequest(0), true, false, true), Waiter(1, u, OfRequest(0), true, false, true)],
      [Hook(true, Some(u), first, false, Some(0)), Hook(true, Some(u), first, false, Some(1))])
  }

  lemma QuietRefreshAnswered(u: User, first: Data, second: Data)
    ensures !Outstanding(Served(u, first), u)
    ensures var w := Step(Step(Step(Served(u, first), Refresh(0, u)), Respond(1, second)), Deliver(2));
      && Idle(w, 1, u) && w.hooks[1].mounted && w.hooks[1].userInfo == first && w.cache == map[u := Value(second)]
      && Quiescent(w) && !Outstanding(w, u)
  {
    var v := Served(u, first);
    RefreshAsksAgain(v, 0, u);
    AnswerServed(Step(v, Refresh(0, u)), 1, second, 2);
  }

  /** An answer without data is not kept: without any refresh the next hook of the user asks again,
      while the first is idle and agrees with nothing cached. */
  lemma MissingAsksAgain(u: User) returns (es: seq<Event>)
    ensures RefreshFree(es) && RequestCount(Run(es).requests, u) == 2
    ensures var w := Run(es);
      Quiescent(w) && Idle(w, 0, u) && w.hooks[0].mounted && Outstanding(w, u) && !ShowsCached(w, 0, u)
  {
    var e1 := [Mount(Some(u))];
    var e2 := e1 + [Respond(0, Missing)];
    var e3 := e2 + [Deliver(0)];
    es := e3 + [Mount(Some(u))];
    OneMounted(u);
    AnswerServed(Run(e1), 0, Missing, 0);
    assert Run(e3) == Step(Step(Run(e1), Respond(0, Missing)), Deliver(0));
    var w := Run(es);
    var q := Request(u, Some(Missing));
    assert w.requests == [q] + [Request(u, None)];
    assert DropLast(w.requests) == [q];
    assert DropLast([q]) == [];
    assert RequestCount([q], u) == RequestCount([], u) + 1;
    assert w.requests[1] == Request(u, None);
  }
}
