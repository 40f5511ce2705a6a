/** What a trim of the message store does to the screen. The trim keeps the messages that arrived
    last, the screen is in the order of creation. */
module TrimmedView {
  import opened Sequences
  import opened Messages
  import opened DateLabels
  import opened Timeline
  import opened ChatScreen

  /** The messages a trim drops. */
  function Dropped(s: seq<Message>): seq<Message> {
    s[..|s| - |Apply(Trim, s)|]
  }

  lemma DroppedThenKept(s: seq<Message>)
    ensures s == Dropped(s) + Apply(Trim, s)
  {
  }

  /** No message of `a` is newer than one of `b`. */
  ghost predicate NotNewer(a: seq<Message>, b: seq<Message>) {
    forall x, y :: x in a && y in b ==> x.createdAt <= y.createdAt
  }

  lemma SortConcat(a: seq<Message>, b: seq<Message>)
    requires NotNewer(a, b)
    ensures Sort(a + b) == Sort(a) + Sort(b)
  {
    var r := Sort(a) + Sort(b);
    SortIsStable(a);
    SortIsStable(b);
    SortKeepsIds(a);
    SortKeepsIds(b);
    forall i, j | 0 <= i < j < |r| ensures r[i].createdAt <= r[j].createdAt {
      if i < |Sort(a)| <= j {
        assert r[i] in Sort(a) && r[j] in Sort(b);
      }
    }
    forall t ensures AtTime(r, t) == AtTime(a + b, t) {
      AtTimeAppend(Sort(a), Sort(b), t);
      AtTimeAppend(a, b, t);
    }
    StableSortIff(a + b, r);
  }

  /** `b` goes on with the id `a` ends in. */
  predicate GoesOn(a: seq<Message>, b: seq<Message>) {
    a != [] && b != [] && Last(a).id == b[0].id
  }

  lemma {:induction false} DropRepeatsFirst(s: seq<Message>)
    requires s != []
    ensures DropRepeats(s) != [] && DropRepeats(s)[0] == s[0]
  {
    if |s| == 1 {
      assert s == [] + [s[0]];
      DropRepeatsSnoc([], s[0]);
    } else {
      assert s == DropLast(s) + [Last(s)];
      DropRepeatsFirst(DropLast(s));
      DropRepeatsSnoc(DropLast(s), Last(s));
    }
  }

  lemma {:induction false} DropRepeatsConcat(a: seq<Message>, b: seq<Message>)
    ensures DropRepeats(b) != [] || b == []
    ensures DropRepeats(a + b) == DropRepeats(a) + if GoesOn(a, b) then DropRepeats(b)[1..] else DropRepeats(b)
  {
    if b == [] {
      assert a + b == a;
    } else {
      var front, m := DropLast(b), Last(b);
      assert b == front + [m] && a + b == (a + front) + [m];
      DropRepeatsFirst(b);
      DropRepeatsConcat(a, front);
      DropRepeatsSnoc(a + front, m);
      DropRepeatsSnoc(front, m);
    }
  }

  /** When no dropped message is newer than a kept one, the screen after the trim is the end of the
      screen before it, except that a first row going on with the id of the last dropped message was
      hidden before. */
  lemma TrimShowsNewest(s: seq<Message>)
    requires NotNewer(Dropped(s), Apply(Trim, s))
    ensures var dropped, kept := Dropped(s), Apply(Trim, s);
      if GoesOn(Sort(dropped), Sort(kept)) then Shown(kept) != [] && Shown(s) == Shown(dropped) + Shown(kept)[1..]
      else Shown(s) == Shown(dropped) + Shown(kept)
  {
    var dropped, kept := Dropped(s), Apply(Trim, s);
    DroppedThenKept(s);
    SortConcat(dropped, kept);
    DropRepeatsConcat(Sort(dropped), Sort(kept));
  }

  lemma {:induction false} KeptMember(t: seq<Message>, n: nat, h: nat)
    requires h < n <= |t| && DiffersFromPrevious(t, h)
    ensures t[h] in KeptUpTo(t, n)
  {
    if h == n - 1 {
      assert KeptUpTo(t, n) == KeptUpTo(t, n - 1) + [t[h]];
    } else {
      KeptMember(t, n - 1, h);
    }
  }

  /** Behind a message of another id, the first of the run of equal ids that reaches `p`. */
  lemma {:induction false} RunHead(t: seq<Message>, low: nat, p: nat) returns (h: nat)
    requires low < p < |t| && t[low].id != t[p].id
    ensures low < h <= p && t[h].id == t[p].id && DiffersFromPrevious(t, h)
  {
    if t[p - 1].id == t[p].id {
      h := RunHead(t, low, p - 1);
    } else {
      h := p;
    }
  }

  /** A dropped message whose id is not kept, newer than a kept one: the screen before the trim shows
      its id later than that kept message. */
  lemma NewerShown(dropped: seq<Message>, kept: seq<Message>, d: Message, k: Message) returns (x: Message)
    requires d in dropped && k in kept && d.id !in Ids(kept) && k.createdAt < d.createdAt
    ensures x in Shown(dropped + kept) && x.id == d.id && k.createdAt < x.createdAt
  {
    var s := dropped + kept;
    var t := Sort(s);
    var perm := SortOrder(s);
    var i: nat :| i < |dropped| && dropped[i] == d;
    var j: nat :| j < |kept| && kept[j] == k;
    assert s[i] == d && s[|dropped| + j] == k;
    var p := PositionOf(s, perm, i);
    var low := PositionOf(s, perm, |dropped| + j);
    PositionsFollowBefore(s, perm, low, p);
    assert k.id in Ids(kept);
    var h := RunHead(t, low, p);
    x := t[h];
    KeptMember(t, |t|, h);
    DroppedOrKept(dropped, kept, perm[h]);
    assert Before(s, perm[low], perm[h]);
  }

  lemma DroppedOrKept(dropped: seq<Message>, kept: seq<Message>, i: nat)
    requires i < |dropped + kept|
    ensures i < |dropped| || (dropped + kept)[i] in kept
  {
    if i >= |dropped| {
      assert (dropped + kept)[i] == kept[i - |dropped|];
    }
  }

  lemma FirstShownOldest(s: seq<Message>, k: Message)
    requires k in s
    ensures Shown(s) != [] && Shown(s)[0].createdAt <= k.createdAt
  {
    SortKeepsIds(s);
    SortIsStable(s);
    DropRepeatsFirst(Sort(s));
    var i :| 0 <= i < |Sort(s)| && Sort(s)[i] == k;
  }

  ghost predicate EndsWith(r: seq<Message>, q: seq<Message>) {
    |q| <= |r| && r[|r| - |q|..] == q
  }

  lemma OldOrAtEnd(r: seq<Message>, q: seq<Message>, x: Message)
    requires EndsWith(r, q) && Sorted(r) && q != [] && x in r
    ensures x in q || x.createdAt <= q[0].createdAt
  {
    var n := |r| - |q|;
    var p :| 0 <= p < |r| && r[p] == x;
    assert q[0] == r[n];
    if p < n {
      assert r[p].createdAt <= r[n].createdAt;
    } else {
      assert q[p - n] == x;
    }
  }

  /** Otherwise the trim takes newer rows off the screen while keeping older ones. */
  lemma TrimLosesNewer(s: seq<Message>, d: Message, k: Message)
    requires d in Dropped(s) && k in Apply(Trim, s) && d.id !in Ids(Apply(Trim, s)) && k.createdAt < d.createdAt
    ensures d.id in Ids(Shown(s)) && d.id !in Ids(Shown(Apply(Trim, s))) && k.id in Ids(Shown(Apply(Trim, s)))
    ensures !EndsWith(Shown(s), Shown(Apply(Trim, s)))
  {
    var dropped, kept := Dropped(s), Apply(Trim, s);
    DroppedThenKept(s);
    var x := NewerShown(dropped, kept, d, k);
    ShownIds(s);
    ShownIds(kept);
    FirstShownOldest(kept, k);
    ShownSorted(s);
    var r, q := Shown(s), Shown(kept);
    if EndsWith(r, q) {
      OldOrAtEnd(r, q, x);
    }
  }

  lemma ShownIds(s: seq<Message>)
    ensures Ids(Shown(s)) == Ids(s)
  {
    SortKeepsIds(s);
    DropRepeatsIds(Sort(s));
  }

  lemma ApartNotGoingOn(a: seq<Message>, b: seq<Message>)
    requires Ids(a) !! Ids(b)
    ensures !GoesOn(a, b)
  {
    if a != [] && b != [] {
      assert Last(a).id in Ids(a) && b[0].id in Ids(b);
    }
  }

  /** So when no id is on both sides of the trim, the screen after it is the end of the screen before
      exactly when no dropped message is newer than a kept one. */
  lemma TrimShowsNewestIff(s: seq<Message>)
    requires Ids(Dropped(s)) !! Ids(Apply(Trim, s))
    ensures EndsWith(Shown(s), Shown(Apply(Trim, s))) <==> NotNewer(Dropped(s), Apply(Trim, s))
  {
    var dropped, kept := Dropped(s), Apply(Trim, s);
    if NotNewer(dropped, kept) {
      TrimShowsNewest(s);
      SortKeepsIds(dropped);
      SortKeepsIds(kept);
      ApartNotGoingOn(Sort(dropped), Sort(kept));
    } else {
      var d, k :| d in dropped && k in kept && k.createdAt < d.createdAt;
      assert d.id in Ids(dropped);
      TrimLosesNewer(s, d, k);
    }
  }

  /** The newest message, loaded before 100 older ones: once the screen has settled it is gone, and
      older ones are still shown. */
  lemma NewestTrimmed(newest: Message, older: seq<Message>) returns (es: seq<Event>)
    requires |older| >= LONG_LIST
    requires forall m :: m in older ==> m.createdAt < newest.createdAt && m.id != newest.id
    ensures var s, t := [newest] + older, Run(es).messages;
      && Settled(Run(es)) && t == Apply(Trim, s)
      && newest.id in Ids(Shown(s)) && newest.id !in Ids(Shown(t)) && Shown(t) != []
  {
    var s := [newest] + older;
    es := SettleTrimmed(s);
    var kept := Apply(Trim, s);
    var k := kept[0];
    assert k == s[|s| - KEPT] == older[|older| - KEPT];
    assert newest == Dropped(s)[0];
    forall m | m in kept ensures m in older {
      var i :| 0 <= i < |kept| && kept[i] == m;
      assert m == older[|older| - KEPT + i];
    }
    TrimLosesNewer(s, newest, k);
    FirstShownOldest(kept, k);
  }

  /** A load of an over-long list settles with its last 50 messages. */
  lemma SettleTrimmed(s: seq<Message>) returns (es: seq<Event>)
    requires |s| > LONG_LIST
    ensures Settled(Run(es)) && Run(es).messages == Apply(Trim, s)
  {
    var e1 := [MessagesLoaded(true, s)];
    var e3 := e1 + [Render, RunEffects];
    var e4 := e3 + [Render];
    es := e4 + [RunEffects];
    LongLoad(s);
    assert Run([]) == INIT;
    assert Run(e1) == INIT.(queue := [Load(s)]);
    assert DropLast(e3) == e1 + [Render];
    assert Run(e3) == State(s, [Trim], |s|, false);
    assert DropLast([Trim]) == [] && ApplyAll([], s) == s;
    assert Run(e4) == Rendered(State(s, [Trim], |s|, false));
    assert Run(e4) == State(Apply(Trim, s), [], |s|, true);
    assert Run(es) == Effects(Run(e4));
  }
}
