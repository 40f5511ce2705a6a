/** The chat timeline: the memo that turns the message store into the list shown on screen. */
module Timeline {
  import opened Sequences
  import opened Messages
  import opened DateLabels

  /** The rows of the timeline, before labels. */
  function Shown(messages: seq<Message>): seq<Message> {
    DropRepeats(Sort(messages))
  }

  function TimelineOf(cal: Calendar, today: int, messages: seq<Message>): seq<Entry> {
    Labelled(cal, today, None, Shown(messages))
  }

  /** `messagesWithDateLabels`. */
  method MessagesWithDateLabels(cal: Calendar, today: int, messages: seq<Message>) returns (r: seq<Entry>)
    ensures r == TimelineOf(cal, today, messages)
  {
    var sortedMessages := DropRepeats(Sort(messages));
    r := InjectDateLabels(cal, today, sortedMessages);
  }

  // ---------------------------------------------------------------- unique keys

  /** Sorting would put a message with another id between two messages that share theirs. */
  ghost predicate IdSplit(s: seq<Message>) {
    exists i: nat, j: nat, k: nat ::
      i < |s| && j < |s| && k < |s| && Before(s, i, j) && Before(s, j, k) && s[i].id == s[k].id && s[j].id != s[i].id
  }

  /** Equal ids carry equal creation times and distinct ids distinct ones. */
  ghost predicate IdsMatchTimes(s: seq<Message>) {
    forall i, j :: 0 <= i < |s| && 0 <= j < |s| ==> (s[i].id == s[j].id <==> s[i].createdAt == s[j].createdAt)
  }

  /** Where message `i` of the store stands in the sorted list. */
  lemma PositionOf(s: seq<Message>, perm: seq<nat>, i: nat) returns (p: nat)
    requires SortsBy(s, perm) && i < |s|
    ensures p < |perm| && perm[p] == i && Sort(s)[p] == s[i]
  {
    assert i in perm;
    p :| 0 <= p < |perm| && perm[p] == i;
  }

  lemma PositionsFollowBefore(s: seq<Message>, perm: seq<nat>, p: nat, q: nat)
    requires SortsBy(s, perm) && p < |perm| && q < |perm| && Before(s, perm[p], perm[q])
    ensures p < q
  {
  }

  lemma SplitWhenApart(s: seq<Message>, perm: seq<nat>)
    requires SortsBy(s, perm) && !IdsTogether(Sort(s))
    ensures IdSplit(s)
  {
    var r := Sort(s);
    var p, q, t :| 0 <= p < q < t < |r| && r[p].id == r[t].id && r[q].id != r[p].id;
    assert Before(s, perm[p], perm[q]) && Before(s, perm[q], perm[t]);
  }

  lemma ApartWhenSplit(s: seq<Message>, perm: seq<nat>)
    requires SortsBy(s, perm) && IdSplit(s)
    ensures !IdsTogether(Sort(s))
  {
    var i: nat, j: nat, k: nat :| i < |s| && j < |s| && k < |s| && Before(s, i, j) && Before(s, j, k)
      && s[i].id == s[k].id && s[j].id != s[i].id;
    var p := PositionOf(s, perm, i);
    var q := PositionOf(s, perm, j);
    var t := PositionOf(s, perm, k);
    PositionsFollowBefore(s, perm, p, q);
    PositionsFollowBefore(s, perm, q, t);
    assert Sort(s)[p].id == Sort(s)[t].id;
  }

  lemma SortedTogetherIff(s: seq<Message>)
    ensures IdsTogether(Sort(s)) <==> !IdSplit(s)
  {
    var perm := SortOrder(s);
    if IdSplit(s) {
      ApartWhenSplit(s, perm);
    } else if !IdsTogether(Sort(s)) {
      SplitWhenApart(s, perm);
    }
  }

  lemma SortedUpper(s: seq<Message>, x: Message)
    requires Sorted(s) && s != [] && x in DropLast(s)
    ensures x.createdAt <= Last(s).createdAt
  {
    var i :| 0 <= i < |s| - 1 && s[i] == x;
    assert s[i].createdAt <= s[|s| - 1].createdAt;
  }

  lemma SortedSnoc(s: seq<Message>, m: Message)
    requires Sorted(s) && forall i :: 0 <= i < |s| ==> s[i].createdAt <= m.createdAt
    ensures Sorted(s + [m])
  {
  }

  lemma KeptNotLater(s: seq<Message>, kept: seq<Message>)
    requires Sorted(s) && s != [] && forall x :: x in kept ==> x in DropLast(s)
    ensures forall i :: 0 <= i < |kept| ==> kept[i].createdAt <= Last(s).createdAt
  {
    forall i | 0 <= i < |kept| ensures kept[i].createdAt <= Last(s).createdAt {
      SortedUpper(s, kept[i]);
    }
  }

  lemma {:induction false} DropRepeatsSorted(s: seq<Message>)
    requires Sorted(s)
    ensures Sorted(DropRepeats(s))
  {
    if s == [] {
    } else {
      var front, m := DropLast(s), Last(s);
      assert s == front + [m];
      DropRepeatsSorted(front);
      DropRepeatsSnoc(front, m);
      var kept := DropRepeats(front);
      DropRepeatsIds(front);
      KeptNotLater(s, kept);
      SortedSnoc(kept, m);
    }
  }

  lemma ShownSorted(s: seq<Message>)
    ensures Sorted(Shown(s))
    ensures forall m :: m in Shown(s) ==> m in Sort(s)
  {
    SortIsStable(s);
    DropRepeatsSorted(Sort(s));
    DropRepeatsIds(Sort(s));
  }

  lemma SortedDaysTogether(cal: Calendar, s: seq<Message>)
    requires cal.Valid() && Sorted(s)
    ensures DaysTogether(cal, s)
  {
    forall i, j, k | 0 <= i < j < k < |s| && cal.Day(s[i]) == cal.Day(s[k]) ensures cal.Day(s[j]) == cal.Day(s[i]) {
      assert s[i].createdAt <= s[j].createdAt <= s[k].createdAt;
    }
  }

  /** The keys of the timeline are pairwise distinct exactly when the store has no split id. Label
      keys never collide: that is the sort's doing, not the counter's. */
  lemma KeysDistinctIffNoSplit(cal: Calendar, today: int, messages: seq<Message>)
    requires cal.Valid()
    ensures KeysDistinct(TimelineOf(cal, today, messages)) <==> !IdSplit(messages)
  {
    ShownSorted(messages);
    SortedDaysTogether(cal, Shown(messages));
    KeysDistinctIff(cal, today, Shown(messages));
    DropRepeatsDistinctIff(Sort(messages));
    SortedTogetherIff(messages);
  }

  lemma {:induction false} KeptFrom(s: seq<Message>, n: nat, m: Message) returns (p: nat)
    requires n <= |s| && m in KeptUpTo(s, n)
    ensures p < n && s[p] == m && DiffersFromPrevious(s, p)
  {
    if m in KeptUpTo(s, n - 1) {
      p := KeptFrom(s, n - 1, m);
    } else {
      p := n - 1;
    }
  }

  /** Message `i` is the first of its id to have arrived. */
  ghost predicate FirstOfId(s: seq<Message>, i: nat)
    requires i < |s|
  {
    forall j: nat :: j < i ==> s[j].id != s[i].id
  }

  lemma ShownIsFirst(s: seq<Message>, m: Message) returns (i: nat)
    requires IdsMatchTimes(s) && m in Shown(s)
    ensures i < |s| && s[i] == m && FirstOfId(s, i)
  {
    var perm := SortOrder(s);
    var r := Sort(s);
    var p := KeptFrom(r, |r|, m);
    i := perm[p];
    SortIsStable(s);
    assert p > 0 ==> r[p - 1] == s[perm[p - 1]] && r[p - 1].createdAt < r[p].createdAt;
    forall j: nat | j < i ensures s[j].id != s[i].id {
      var q := PositionOf(s, perm, j);
      if q < p {
        assert r[q].createdAt <= r[p - 1].createdAt;
      } else {
        assert Before(s, i, j);
      }
    }
  }

  lemma MatchedNotSplit(s: seq<Message>)
    requires IdsMatchTimes(s)
    ensures !IdSplit(s)
  {
  }

  lemma SortKeepsIds(s: seq<Message>)
    ensures Ids(Sort(s)) == Ids(s)
    ensures forall m :: m in Sort(s) <==> m in s
  {
    var perm := SortOrder(s);
    forall m | m in s ensures m in Sort(s) {
      var i :| 0 <= i < |s| && s[i] == m;
      var p := PositionOf(s, perm, i);
    }
  }

  /** With ids and creation times determining each other, the timeline shows each id once, as it
      first arrived, in strictly increasing time, and every list key is unique. */
  lemma TimelineFaithful(cal: Calendar, today: int, messages: seq<Message>)
    requires cal.Valid() && IdsMatchTimes(messages)
    ensures KeysDistinct(TimelineOf(cal, today, messages))
    ensures var rows := Erase(TimelineOf(cal, today, messages));
      && Ids(rows) == Ids(messages)
      && IdsDistinct(rows)
      && (forall i, j :: 0 <= i < j < |rows| ==> rows[i].createdAt < rows[j].createdAt)
      && (forall m :: m in rows ==> exists i: nat :: i < |messages| && messages[i] == m && FirstOfId(messages, i))
  {
    MatchedNotSplit(messages);
    KeysDistinctIffNoSplit(cal, today, messages);
    EraseLabelled(cal, today, None, Shown(messages));
    var rows := Shown(messages);
    SortKeepsIds(messages);
    DropRepeatsIds(Sort(messages));
    DropRepeatsDistinctIff(Sort(messages));
    SortedTogetherIff(messages);
    ShownSorted(messages);
    forall i, j | 0 <= i < j < |rows| ensures rows[i].createdAt < rows[j].createdAt {
      assert rows[i] in messages && rows[j] in messages;
      assert rows[i].id != rows[j].id;
    }
    forall m | m in rows ensures exists i: nat :: i < |messages| && messages[i] == m && FirstOfId(messages, i) {
      var i := ShownIsFirst(messages, m);
    }
  }

  // ---------------------------------------------------------------- incremental maintenance

  /** Message `i` is the last, once sorted, of those not later than `m`. */
  ghost predicate LatestNotAfter(s: seq<Message>, m: Message, i: nat) {
    && i < |s| && s[i].createdAt <= m.createdAt
    && forall j: nat :: j < |s| && s[j].createdAt <= m.createdAt ==> j == i || Before(s, j, i)
  }

  /** The held message that `m` would be sorted behind has `m`'s id. */
  ghost predicate Covered(s: seq<Message>, m: Message) {
    exists i: nat :: LatestNotAfter(s, m, i) && s[i].id == m.id
  }

  lemma SortSnoc(s: seq<Message>, m: Message)
    ensures Sort(s + [m]) == Insert(Sort(s), m)
  {
    assert DropLast(s + [m]) == s;
  }

  lemma NoneLatest(s: seq<Message>, m: Message)
    requires InsertAt(Sort(s), m) == 0
    ensures forall i: nat :: !LatestNotAfter(s, m, i)
  {
    var perm := SortOrder(s);
    forall i: nat | i < |s| ensures m.createdAt < s[i].createdAt {
      var p := PositionOf(s, perm, i);
    }
  }

  lemma NeighbourIsLatest(s: seq<Message>, m: Message, perm: seq<nat>)
    requires SortsBy(s, perm) && InsertAt(Sort(s), m) > 0
    ensures LatestNotAfter(s, m, perm[InsertAt(Sort(s), m) - 1])
  {
    var k := InsertAt(Sort(s), m);
    forall j: nat | j < |s| && s[j].createdAt <= m.createdAt ensures j == perm[k - 1] || Before(s, j, perm[k - 1]) {
      var p := PositionOf(s, perm, j);
      assert p < k;
    }
  }

  lemma Neighbour(s: seq<Message>, m: Message) returns (l: nat)
    requires InsertAt(Sort(s), m) > 0
    ensures LatestNotAfter(s, m, l) && s[l] == Sort(s)[InsertAt(Sort(s), m) - 1]
  {
    var perm := SortOrder(s);
    NeighbourIsLatest(s, m, perm);
    l := perm[InsertAt(Sort(s), m) - 1];
  }

  lemma LatestUnique(s: seq<Message>, m: Message, i: nat, j: nat)
    requires LatestNotAfter(s, m, i) && LatestNotAfter(s, m, j)
    ensures i == j
  {
  }

  lemma CoveredByLatest(s: seq<Message>, m: Message, l: nat)
    requires LatestNotAfter(s, m, l)
    ensures Covered(s, m) <==> s[l].id == m.id
  {
    if Covered(s, m) {
      var i: nat :| LatestNotAfter(s, m, i) && s[i].id == m.id;
      LatestUnique(s, m, i, l);
    }
  }

  lemma CoveredIffNeighbour(s: seq<Message>, m: Message)
    ensures var r := Sort(s); var k := InsertAt(r, m); Covered(s, m) <==> k > 0 && r[k - 1].id == m.id
  {
    if InsertAt(Sort(s), m) == 0 {
      NoneLatest(s, m);
    } else {
      var l := Neighbour(s, m);
      CoveredByLatest(s, m, l);
    }
  }

  /** Inserting `m` between `a` and the later messages `b` is invisible exactly when `a` ends in `m`'s id. */
  lemma InsertInvisibleIff(a: seq<Message>, m: Message, b: seq<Message>)
    requires forall x :: x in b ==> m.createdAt < x.createdAt
    ensures DropRepeats(a + [m] + b) == DropRepeats(a + b) <==> a != [] && Last(a).id == m.id
  {
    DropRepeatsSnoc(a, m);
    if a != [] && Last(a).id == m.id {
      var tail := DropRepeatsSuffix(a, a + [m], b);
    } else {
      var long := DropRepeatsExtends(a + [m], b);
      var short := DropRepeatsExtends(a, b);
      var n := |DropRepeats(a)|;
      assert DropRepeats(a + [m] + b)[n] == m;
      assert n < |DropRepeats(a + b)| ==> DropRepeats(a + b)[n] == short[0] && short[0] in b;
    }
  }

  lemma SameTimelineIff(cal: Calendar, today: int, s: seq<Message>, t: seq<Message>)
    ensures TimelineOf(cal, today, s) == TimelineOf(cal, today, t) <==> Shown(s) == Shown(t)
  {
    EraseLabelled(cal, today, None, Shown(s));
    EraseLabelled(cal, today, None, Shown(t));
  }

  /** Delivering `m` leaves the timeline as it is exactly when the held message `m` sorts behind
      has `m`'s id. */
  lemma DeliveryInvisibleIff(cal: Calendar, today: int, s: seq<Message>, m: Message)
    ensures TimelineOf(cal, today, s + [m]) == TimelineOf(cal, today, s) <==> Covered(s, m)
  {
    SameTimelineIff(cal, today, s + [m], s);
    SortSnoc(s, m);
    CoveredIffNeighbour(s, m);
    InsertedInvisibleIff(Sort(s), m);
  }

  lemma LaterBehind(r: seq<Message>, m: Message)
    ensures forall x :: x in r[InsertAt(r, m)..] ==> m.createdAt < x.createdAt
  {
    var k := InsertAt(r, m);
    forall x | x in r[k..] ensures m.createdAt < x.createdAt {
      var i :| 0 <= i < |r[k..]| && r[k..][i] == x;
      assert r[k + i] == x;
    }
  }

  lemma InsertedInvisibleIff(r: seq<Message>, m: Message)
    ensures var k := InsertAt(r, m);
      DropRepeats(Insert(r, m)) == DropRepeats(r) <==> k > 0 && r[k - 1].id == m.id
  {
    var k := InsertAt(r, m);
    var a, b := r[..k], r[k..];
    assert a + b == r && a + [m] + b == Insert(r, m);
    LaterBehind(r, m);
    InsertInvisibleIff(a, m, b);
  }

  lemma HeldTwin(s: seq<Message>, m: Message) returns (i: nat)
    requires IdsMatchTimes(s + [m]) && m.id in Ids(s)
    ensures i < |s| && s[i].createdAt == m.createdAt
    ensures forall j :: 0 <= j < |s| && s[j].createdAt == m.createdAt ==> s[j].id == m.id
  {
    var t := s + [m];
    var x :| x in s && x.id == m.id;
    i :| 0 <= i < |s| && s[i] == x;
    assert t[i].id == t[|s|].id;
    forall j | 0 <= j < |s| && s[j].createdAt == m.createdAt ensures s[j].id == m.id {
      assert t[j].createdAt == t[|s|].createdAt;
    }
  }

  lemma TwinCovers(s: seq<Message>, m: Message, i: nat)
    requires i < |s| && s[i].createdAt == m.createdAt
    requires forall j :: 0 <= j < |s| && s[j].createdAt == m.createdAt ==> s[j].id == m.id
    ensures Covered(s, m)
  {
    NotBeforeAll(s, m, i);
    var l := Neighbour(s, m);
    assert l == i || Before(s, i, l);
    CoveredByLatest(s, m, l);
  }

  lemma NotBeforeAll(s: seq<Message>, m: Message, i: nat)
    requires i < |s| && s[i].createdAt <= m.createdAt
    ensures InsertAt(Sort(s), m) > 0
  {
    var perm := SortOrder(s);
    var p := PositionOf(s, perm, i);
  }

  /** A redelivered message, whatever its text, is invisible while ids and times determine each other. */
  lemma RedeliveryInvisible(cal: Calendar, today: int, s: seq<Message>, m: Message)
    requires IdsMatchTimes(s + [m]) && m.id in Ids(s)
    ensures TimelineOf(cal, today, s + [m]) == TimelineOf(cal, today, s)
  {
    var i := HeldTwin(s, m);
    TwinCovers(s, m, i);
    DeliveryInvisibleIff(cal, today, s, m);
  }

  lemma InsertLast(r: seq<Message>, m: Message)
    requires r != [] ==> Last(r).createdAt <= m.createdAt
    ensures Insert(r, m) == r + [m]
  {
    assert InsertAt(r, m) == |r|;
  }

  lemma ShownSnoc(s: seq<Message>, m: Message)
    requires forall x :: x in s ==> x.createdAt <= m.createdAt && x.id != m.id
    ensures Shown(s + [m]) == Shown(s) + [m]
  {
    SortSnoc(s, m);
    SortKeepsIds(s);
    assert Sort(s) != [] ==> Last(Sort(s)) in s;
    InsertLast(Sort(s), m);
    DropRepeatsSnoc(Sort(s), m);
  }

  /** In a sorted list the last message is of day `day`, later than none, when any message is. */
  lemma LastHasLatestDay(cal: Calendar, rows: seq<Message>, m: Message)
    requires cal.Valid() && Sorted(rows)
    requires forall x :: x in rows ==> x.createdAt <= m.createdAt
    ensures LastDay(cal, None, rows) == Some(cal.Day(m)) <==> cal.Day(m) in Days(cal, rows)
  {
    if rows != [] {
      assert Last(rows) in rows;
      forall x | x in rows && cal.Day(x) == cal.Day(m) ensures cal.Day(Last(rows)) == cal.Day(m) {
        var i :| 0 <= i < |rows| && rows[i] == x;
        assert x.createdAt <= Last(rows).createdAt <= m.createdAt;
      }
    }
  }

  lemma ShownNotLater(s: seq<Message>, m: Message)
    requires forall x :: x in s ==> x.createdAt <= m.createdAt
    ensures Sorted(Shown(s)) && forall x :: x in Shown(s) ==> x.createdAt <= m.createdAt
  {
    SortKeepsIds(s);
    ShownSorted(s);
  }

  /** A message with a new id that is not older than any held one extends the timeline by itself,
      behind a label exactly when no message shown is of its day. */
  lemma AppendNewest(cal: Calendar, today: int, s: seq<Message>, m: Message)
    requires cal.Valid()
    requires forall x :: x in s ==> x.createdAt <= m.createdAt && x.id != m.id
    ensures TimelineOf(cal, today, s + [m])
         == TimelineOf(cal, today, s)
            + if cal.Day(m) in Days(cal, Shown(s)) then [Row(m)] else [LabelFor(cal, today, cal.Day(m)), Row(m)]
  {
    ShownNotLater(s, m);
    ShownSnoc(s, m);
    LabelledSnoc(cal, today, None, Shown(s), m);
    LastHasLatestDay(cal, Shown(s), m);
    var tail := Tail(cal, today, LastDay(cal, None, Shown(s)), m);
    assert tail == [Row(m)] || tail == [LabelFor(cal, today, cal.Day(m)), Row(m)];
  }

  // ---------------------------------------------------------------- changes in place

  /** `f` leaves the fields that order, thin and key the timeline alone. */
  ghost predicate KeepsPlace(f: Message -> Message, s: seq<Message>) {
    forall m :: m in s ==> f(m).id == m.id && f(m).createdAt == m.createdAt
  }

  function MapRow(f: Message -> Message, e: Entry): Entry {
    match e
    case DateLabel(_, _) => e
    case Row(m) => Row(f(m))
  }

  function MapRows(f: Message -> Message, es: seq<Entry>): (r: seq<Entry>)
    ensures |r| == |es|
    ensures forall i :: 0 <= i < |es| ==> r[i] == MapRow(f, es[i])
  {
    seq(|es|, i requires 0 <= i < |es| => MapRow(f, es[i]))
  }

  lemma {:induction false} MapInsertAt(f: Message -> Message, r: seq<Message>, m: Message)
    requires KeepsPlace(f, r) && f(m).createdAt == m.createdAt
    ensures InsertAt(Map(f, r), f(m)) == InsertAt(r, m)
  {
    if r == [] {
    } else {
      assert Last(r) in r;
      assert DropLast(Map(f, r)) == Map(f, DropLast(r));
      MapInsertAt(f, DropLast(r), m);
    }
  }

  lemma MapInsert(f: Message -> Message, r: seq<Message>, m: Message)
    requires KeepsPlace(f, r) && f(m).createdAt == m.createdAt
    ensures Insert(Map(f, r), f(m)) == Map(f, Insert(r, m))
  {
    MapInsertAt(f, r, m);
    MapAround(f, r[..InsertAt(r, m)], m, r[InsertAt(r, m)..]);
    assert Map(f, r)[..InsertAt(r, m)] == Map(f, r[..InsertAt(r, m)]);
    assert Map(f, r)[InsertAt(r, m)..] == Map(f, r[InsertAt(r, m)..]);
  }

  lemma MapAround(f: Message -> Message, a: seq<Message>, m: Message, b: seq<Message>)
    ensures Map(f, a + [m] + b) == Map(f, a) + [f(m)] + Map(f, b)
  {
  }

  lemma {:induction false} MapSort(f: Message -> Message, s: seq<Message>)
    requires KeepsPlace(f, s)
    ensures Sort(Map(f, s)) == Map(f, Sort(s))
  {
    if s == [] {
    } else {
      var front, m := DropLast(s), Last(s);
      MapSort(f, front);
      SortKeepsIds(front);
      assert DropLast(Map(f, s)) == Map(f, front);
      MapInsert(f, Sort(front), m);
    }
  }

  lemma {:induction false} MapKept(f: Message -> Message, s: seq<Message>, n: nat)
    requires KeepsPlace(f, s) && n <= |s|
    ensures KeptUpTo(Map(f, s), n) == Map(f, KeptUpTo(s, n))
  {
    if n == 0 {
    } else {
      MapKept(f, s, n - 1);
      assert s[n - 1] in s;
      assert n > 1 ==> s[n - 2] in s;
    }
  }

  lemma MapRowsAppend(f: Message -> Message, es: seq<Entry>, fs: seq<Entry>)
    ensures MapRows(f, es + fs) == MapRows(f, es) + MapRows(f, fs)
  {
  }

  lemma {:induction false} MapLabelled(
    f: Message -> Message, cal: Calendar, today: int, prev: Option<int>, ms: seq<Message>)
    requires KeepsPlace(f, ms)
    ensures Labelled(cal, today, prev, Map(f, ms)) == MapRows(f, Labelled(cal, today, prev, ms))
    decreases |ms|
  {
    if ms == [] {
    } else {
      var m, rest := ms[0], ms[1..];
      assert m in ms;
      assert Map(f, ms)[1..] == Map(f, rest) && Map(f, ms)[0] == f(m);
      MapLabelled(f, cal, today, Some(cal.Day(m)), rest);
      MapRowsAppend(f, Tail(cal, today, prev, m), Labelled(cal, today, Some(cal.Day(m)), rest));
      assert MapRows(f, Tail(cal, today, prev, m)) == Tail(cal, today, prev, f(m));
    }
  }

  /** A change of messages in place commutes with the whole view: rebuilding the timeline gives the
      old timeline with the change made in its rows, under the old keys. */
  lemma ChangeInPlace(f: Message -> Message, cal: Calendar, today: int, s: seq<Message>)
    requires KeepsPlace(f, s)
    ensures TimelineOf(cal, today, Map(f, s)) == MapRows(f, TimelineOf(cal, today, s))
    ensures var before, after := TimelineOf(cal, today, s), TimelineOf(cal, today, Map(f, s));
      |after| == |before| && forall k :: 0 <= k < |before| ==> Key(after[k]) == Key(before[k])
  {
    MapSort(f, s);
    SortKeepsIds(s);
    var r := Sort(s);
    MapKept(f, r, |r|);
    DropRepeatsIds(r);
    MapLabelled(f, cal, today, None, Shown(s));
    var es := TimelineOf(cal, today, s);
    EraseLabelled(cal, today, None, Shown(s));
    forall k | 0 <= k < |es| ensures Key(MapRow(f, es[k])) == Key(es[k]) {
      if es[k].Row? {
        RowErased(es, k);
      }
    }
  }

  lemma {:induction false} RowErased(es: seq<Entry>, k: nat)
    requires k < |es| && es[k].Row?
    ensures es[k].msg in Erase(es)
  {
    if k == 0 {
    } else {
      RowErased(es[1..], k - 1);
    }
  }
}
