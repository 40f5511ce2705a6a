/** When a translation may be made on the screen instead of in the store, though it moves messages:
    it gives all held copies of its message one creation time. */
module TranslatedView {
  import opened Sequences
  import opened Messages
  import opened DateLabels
  import opened Timeline
  import opened ChatScreen

  // ---------------------------------------------------------------- rows and their indices

  lemma {:induction false} KeptPositions(r: seq<Message>, n: nat) returns (pos: seq<nat>)
    requires n <= |r|
    ensures |pos| == |KeptUpTo(r, n)|
    ensures forall k :: 0 <= k < |pos| ==>
      pos[k] < n && KeptUpTo(r, n)[k] == r[pos[k]] && DiffersFromPrevious(r, pos[k])
    ensures forall p, q :: 0 <= p < q < |pos| ==> pos[p] < pos[q]
  {
    if n == 0 {
      pos := [];
    } else {
      pos := KeptPositions(r, n - 1);
      if DiffersFromPrevious(r, n - 1) {
        pos := pos + [n - 1];
      }
    }
  }

  /** Message `i` of the store is sorted before all others of its id. */
  ghost predicate Heads(s: seq<Message>, i: nat)
    requires i < |s|
  {
    forall j: nat :: j < |s| && s[j].id == s[i].id ==> j == i || Before(s, i, j)
  }

  /** `idx` lists the store indices of the rows shown. */
  ghost predicate Indexes(s: seq<Message>, idx: seq<nat>) {
    && |idx| == |Shown(s)|
    && (forall k :: 0 <= k < |idx| ==> idx[k] < |s| && s[idx[k]] == Shown(s)[k] && Heads(s, idx[k]))
    && (forall p, q :: 0 <= p < q < |idx| ==> Before(s, idx[p], idx[q]))
  }

  lemma RunStart(r: seq<Message>, p: nat, t: nat)
    requires IdsTogether(r) && p < |r| && t < |r| && DiffersFromPrevious(r, p) && r[t].id == r[p].id
    ensures p <= t
  {
  }

  lemma FirstOfRunHeads(s: seq<Message>, perm: seq<nat>, p: nat)
    requires SortsBy(s, perm) && IdsTogether(Sort(s)) && p < |perm| && DiffersFromPrevious(Sort(s), p)
    ensures Heads(s, perm[p])
  {
    var r, i := Sort(s), perm[p];
    forall j: nat | j < |s| && s[j].id == s[i].id ensures j == i || Before(s, i, j) {
      var t := PositionOf(s, perm, j);
      assert r[t].id == r[p].id;
      RunStart(r, p, t);
    }
  }

  lemma ShownIndex(s: seq<Message>) returns (idx: seq<nat>)
    requires !IdSplit(s)
    ensures Indexes(s, idx)
  {
    var r := Sort(s);
    var perm := SortOrder(s);
    var pos := KeptPositions(r, |r|);
    SortedTogetherIff(s);
    idx := seq(|pos|, k requires 0 <= k < |pos| => perm[pos[k]]);
    assert Shown(s) == KeptUpTo(r, |r|);
    forall k | 0 <= k < |idx| ensures idx[k] < |s| && s[idx[k]] == Shown(s)[k] && Heads(s, idx[k]) {
      FirstOfRunHeads(s, perm, pos[k]);
    }
  }

  /** Without split ids, how one message of an id stands to one of another decides for all of them. */
  lemma BlockOrder(s: seq<Message>, i: nat, j: nat, k: nat, l: nat)
    requires !IdSplit(s) && i < |s| && j < |s| && k < |s| && l < |s|
    requires s[i].id == s[k].id && s[j].id == s[l].id && s[i].id != s[j].id && Before(s, i, j)
    ensures Before(s, k, l)
  {
  }

  // ---------------------------------------------------------------- one order of ids

  lemma {:induction false} IncreasingIsIdentity(pos: seq<nat>)
    requires forall i, j :: 0 <= i < j < |pos| ==> pos[i] < pos[j]
    requires forall i :: 0 <= i < |pos| ==> pos[i] < |pos|
    ensures forall i :: 0 <= i < |pos| ==> pos[i] == i
  {
    if |pos| <= 1 {
    } else {
      var front := DropLast(pos);
      forall i | 0 <= i < |front| ensures front[i] < |front| {
        assert pos[i] < pos[|pos| - 1];
      }
      IncreasingIsIdentity(front);
      assert pos[|pos| - 2] == front[|pos| - 2] < pos[|pos| - 1];
    }
  }

  lemma {:induction false} PositionsIn(a: seq<string>, b: seq<string>) returns (pos: seq<nat>)
    requires forall i :: 0 <= i < |a| ==> a[i] in b
    ensures |pos| == |a| && forall i :: 0 <= i < |a| ==> pos[i] < |b| && b[pos[i]] == a[i]
  {
    if a == [] {
      pos := [];
    } else {
      var front := PositionsIn(DropLast(a), b);
      assert a[|a| - 1] in b;
      var p :| 0 <= p < |b| && b[p] == a[|a| - 1];
      pos := front + [p];
    }
  }

  // ---------------------------------------------------------------- translations

  /** With `n` in the place of message `i`, it would precede message `j` once sorted. */
  predicate WouldPrecede(s: seq<Message>, n: Message, i: nat, j: nat)
    requires i < |s| && j < |s|
  {
    n.createdAt < s[j].createdAt || (n.createdAt == s[j].createdAt && i < j)
  }

  /** No held copy of the message would change sides with a message of another id. */
  ghost predicate SidesKept(s: seq<Message>, n: Message) {
    forall i: nat, j: nat :: i < |s| && j < |s| && s[i].id == n.id && s[j].id != n.id ==>
      (Before(s, i, j) <==> WouldPrecede(s, n, i, j))
  }

  lemma PairKept(s: seq<Message>, n: Message, i: nat, j: nat)
    requires SidesKept(s, n) && i < |s| && j < |s| && s[i].id != s[j].id
    ensures Before(Map(ReplaceWith(n.id, n), s), i, j) <==> Before(s, i, j)
  {
    if s[i].id == n.id {
      assert Before(s, i, j) <==> WouldPrecede(s, n, i, j);
    } else if s[j].id == n.id {
      assert Before(s, j, i) <==> WouldPrecede(s, n, j, i);
    }
  }

  /** Messages in the order `i`, `j`, `k` that split an id. */
  ghost predicate SplitAt(s: seq<Message>, i: nat, j: nat, k: nat)
    requires i < |s| && j < |s| && k < |s|
  {
    Before(s, i, j) && Before(s, j, k) && s[i].id == s[k].id && s[j].id != s[i].id
  }

  lemma SplitKept(s: seq<Message>, n: Message, i: nat, j: nat, k: nat)
    requires SidesKept(s, n) && i < |s| && j < |s| && k < |s| && SplitAt(Map(ReplaceWith(n.id, n), s), i, j, k)
    ensures SplitAt(s, i, j, k)
  {
    var t := Map(ReplaceWith(n.id, n), s);
    assert t[i].id == s[i].id && t[j].id == s[j].id && t[k].id == s[k].id;
    PairKept(s, n, i, j);
    PairKept(s, n, j, k);
  }

  lemma SplitWitness(t: seq<Message>) returns (i: nat, j: nat, k: nat)
    requires IdSplit(t)
    ensures i < |t| && j < |t| && k < |t| && SplitAt(t, i, j, k)
  {
    i, j, k :| i < |t| && j < |t| && k < |t| && Before(t, i, j) && Before(t, j, k)
      && t[i].id == t[k].id && t[j].id != t[i].id;
  }

  lemma NoneNewlySplit(s: seq<Message>, n: Message)
    requires SidesKept(s, n) && !IdSplit(s)
    ensures !IdSplit(Map(ReplaceWith(n.id, n), s))
  {
    if IdSplit(Map(ReplaceWith(n.id, n), s)) {
      var i, j, k := SplitWitness(Map(ReplaceWith(n.id, n), s));
      SplitKept(s, n, i, j, k);
    }
  }

  lemma OrderKept(s: seq<Message>, n: Message, i: nat, j: nat, k: nat, l: nat)
    requires SidesKept(s, n) && !IdSplit(s)
    requires i < |s| && j < |s| && k < |s| && l < |s|
    requires s[i].id == s[k].id && s[j].id == s[l].id && s[i].id != s[j].id && Before(s, i, j)
    ensures Before(Map(ReplaceWith(n.id, n), s), k, l)
  {
    BlockOrder(s, i, j, k, l);
    PairKept(s, n, k, l);
  }

  function IdList(s: seq<Message>): (r: seq<string>)
    ensures |r| == |s| && forall i :: 0 <= i < |s| ==> r[i] == s[i].id
  {
    seq(|s|, i requires 0 <= i < |s| => s[i].id)
  }

  lemma IdListMembers(s: seq<Message>, x: string)
    ensures x in IdList(s) <==> x in Ids(s)
  {
    if x in IdList(s) {
      var i :| 0 <= i < |s| && IdList(s)[i] == x;
      assert s[i] in s;
    }
    if x in Ids(s) {
      var m :| m in s && m.id == x;
      var i :| 0 <= i < |s| && s[i] == m;
      assert IdList(s)[i] == x;
    }
  }

  lemma ShownDistinct(s: seq<Message>)
    requires !IdSplit(s)
    ensures Distinct(IdList(Shown(s))) && |Shown(s)| == |Ids(s)|
    ensures forall x :: x in IdList(Shown(s)) <==> x in Ids(s)
  {
    SortedTogetherIff(s);
    DropRepeatsDistinctIff(Sort(s));
    SortKeepsIds(s);
    DropRepeatsIds(Sort(s));
    forall x ensures x in IdList(Shown(s)) <==> x in Ids(s) {
      IdListMembers(Shown(s), x);
    }
    DistinctCardinality(IdList(Shown(s)));
    assert (set x | x in IdList(Shown(s))) == Ids(s);
  }

  lemma SameIds(s: seq<Message>, n: Message)
    ensures Ids(Map(ReplaceWith(n.id, n), s)) == Ids(s)
  {
    var t := Map(ReplaceWith(n.id, n), s);
    forall x ensures x in Ids(t) <==> x in Ids(s) {
      IdListMembers(s, x);
      IdListMembers(t, x);
      assert IdList(s) == IdList(t);
    }
  }

  lemma RowOrderKept(s: seq<Message>, n: Message, idx: seq<nat>, jdx: seq<nat>, p: nat, q: nat, i: nat, j: nat)
    requires SidesKept(s, n) && !IdSplit(s)
    requires Indexes(s, idx) && Indexes(Map(ReplaceWith(n.id, n), s), jdx)
    requires p < q < |idx| && i < |jdx| && j < |jdx|
    requires s[idx[p]].id == s[jdx[i]].id && s[idx[q]].id == s[jdx[j]].id && s[idx[p]].id != s[idx[q]].id
    ensures i < j
  {
    OrderKept(s, n, idx[p], idx[q], jdx[i], jdx[j]);
  }

  lemma RowIds(s: seq<Message>, n: Message, jdx: seq<nat>)
    requires Indexes(Map(ReplaceWith(n.id, n), s), jdx)
    ensures forall j :: 0 <= j < |jdx| ==>
      jdx[j] < |s| && s[jdx[j]].id == IdList(Shown(Map(ReplaceWith(n.id, n), s)))[j]
  {
  }

  lemma RowPositionsIncrease(s: seq<Message>, n: Message, idx: seq<nat>, jdx: seq<nat>, p: nat, q: nat, i: nat, j: nat)
    requires SidesKept(s, n) && !IdSplit(s)
    requires Indexes(s, idx) && Indexes(Map(ReplaceWith(n.id, n), s), jdx)
    requires p < |idx| && q < |idx| && i < j < |jdx|
    requires s[idx[p]].id == s[jdx[i]].id && s[idx[q]].id == s[jdx[j]].id && s[idx[p]].id != s[idx[q]].id
    ensures p < q
  {
    if q < p {
      RowOrderKept(s, n, idx, jdx, q, p, j, i);
    }
  }

  /** The rows keep their order of ids. */
  lemma RowIdsKept(s: seq<Message>, n: Message, idx: seq<nat>, jdx: seq<nat>)
    requires SidesKept(s, n) && !IdSplit(s)
    requires Indexes(s, idx) && Indexes(Map(ReplaceWith(n.id, n), s), jdx)
    ensures IdList(Shown(Map(ReplaceWith(n.id, n), s))) == IdList(Shown(s))
  {
    var t := Map(ReplaceWith(n.id, n), s);
    var a, b := IdList(Shown(t)), IdList(Shown(s));
    NoneNewlySplit(s, n);
    SameRowIds(s, n);
    var pos := PositionsIn(a, b);
    PositionsIncrease(s, n, idx, jdx, pos);
    IncreasingIsIdentity(pos);
  }

  lemma SameRowIds(s: seq<Message>, n: Message)
    requires !IdSplit(s) && !IdSplit(Map(ReplaceWith(n.id, n), s))
    ensures var a, b := IdList(Shown(Map(ReplaceWith(n.id, n), s))), IdList(Shown(s));
      |a| == |b| && Distinct(a) && forall i :: 0 <= i < |a| ==> a[i] in b
  {
    var t := Map(ReplaceWith(n.id, n), s);
    var a := IdList(Shown(t));
    ShownDistinct(s);
    ShownDistinct(t);
    SameIds(s, n);
    forall i | 0 <= i < |a| ensures a[i] in IdList(Shown(s)) {
      assert a[i] in a;
    }
  }

  lemma PositionsIncrease(s: seq<Message>, n: Message, idx: seq<nat>, jdx: seq<nat>, pos: seq<nat>)
    requires SidesKept(s, n) && !IdSplit(s)
    requires Indexes(s, idx) && Indexes(Map(ReplaceWith(n.id, n), s), jdx)
    requires var a, b := IdList(Shown(Map(ReplaceWith(n.id, n), s))), IdList(Shown(s));
      Distinct(a) && |pos| == |a| && forall i :: 0 <= i < |a| ==> pos[i] < |b| && b[pos[i]] == a[i]
    ensures forall i, j :: 0 <= i < j < |pos| ==> pos[i] < pos[j]
  {
    RowIds(s, n, jdx);
    var a := IdList(Shown(Map(ReplaceWith(n.id, n), s)));
    forall i, j | 0 <= i < j < |pos| ensures pos[i] < pos[j] {
      assert a[i] != a[j];
      RowPositionsIncrease(s, n, idx, jdx, pos[i], pos[j], i, j);
    }
  }

  /** And each is the old row with the translation made in it. */
  lemma RowKept(s: seq<Message>, n: Message, i: nat, j: nat)
    requires i < |s| && j < |s| && s[i].id == s[j].id && Heads(s, i) && Heads(Map(ReplaceWith(n.id, n), s), j)
    ensures Map(ReplaceWith(n.id, n), s)[j] == ReplaceWith(n.id, n)(s[i])
  {
    var t := Map(ReplaceWith(n.id, n), s);
    assert t[i].id == s[i].id && t[j].id == s[j].id;
    if s[i].id != n.id {
      assert t[i] == s[i] && t[j] == s[j];
    }
  }

  lemma RowsKept(s: seq<Message>, n: Message)
    requires SidesKept(s, n) && !IdSplit(s)
    ensures Shown(Map(ReplaceWith(n.id, n), s)) == Map(ReplaceWith(n.id, n), Shown(s))
  {
    var t := Map(ReplaceWith(n.id, n), s);
    NoneNewlySplit(s, n);
    var idx := ShownIndex(s);
    var jdx := ShownIndex(t);
    RowIdsKept(s, n, idx, jdx);
    forall k | 0 <= k < |Shown(s)| ensures Shown(t)[k] == ReplaceWith(n.id, n)(Shown(s)[k]) {
      assert IdList(Shown(t))[k] == IdList(Shown(s))[k];
      RowKept(s, n, idx[k], jdx[k]);
    }
    assert |IdList(Shown(t))| == |IdList(Shown(s))|;
  }

  /** Without split ids, messages stand as the rows of their ids do. */
  lemma RowOrderIff(s: seq<Message>, idx: seq<nat>, i: nat, j: nat, p: nat, q: nat)
    requires !IdSplit(s) && Indexes(s, idx) && i < |s| && j < |s| && p < |idx| && q < |idx|
    requires s[i].id == s[idx[p]].id && s[j].id == s[idx[q]].id && s[i].id != s[j].id
    ensures Before(s, i, j) <==> p < q
  {
    if Before(s, i, j) {
      BlockOrder(s, i, j, idx[p], idx[q]);
    } else {
      BlockOrder(s, j, i, idx[q], idx[p]);
    }
  }

  lemma RowOf(s: seq<Message>, idx: seq<nat>, i: nat) returns (p: nat)
    requires !IdSplit(s) && Indexes(s, idx) && i < |s|
    ensures p < |idx| && Shown(s)[p].id == s[i].id
  {
    ShownDistinct(s);
    assert s[i] in s;
    assert s[i].id in IdList(Shown(s));
    p :| 0 <= p < |Shown(s)| && IdList(Shown(s))[p] == s[i].id;
  }

  lemma RowsKeepSide(s: seq<Message>, n: Message, idx: seq<nat>, jdx: seq<nat>, i: nat, j: nat)
    requires !IdSplit(s) && !IdSplit(Map(ReplaceWith(n.id, n), s))
    requires Shown(Map(ReplaceWith(n.id, n), s)) == Map(ReplaceWith(n.id, n), Shown(s))
    requires Indexes(s, idx) && Indexes(Map(ReplaceWith(n.id, n), s), jdx)
    requires i < |s| && j < |s| && s[i].id != s[j].id
    ensures Before(Map(ReplaceWith(n.id, n), s), i, j) <==> Before(s, i, j)
  {
    var t := Map(ReplaceWith(n.id, n), s);
    var p := RowOf(s, idx, i);
    var q := RowOf(s, idx, j);
    RowOrderIff(s, idx, i, j, p, q);
    assert Shown(t)[p].id == s[i].id && Shown(t)[q].id == s[j].id;
    RowOrderIff(t, jdx, i, j, p, q);
  }

  lemma RowsKeepSides(s: seq<Message>, n: Message)
    requires !IdSplit(s) && !IdSplit(Map(ReplaceWith(n.id, n), s))
    requires Shown(Map(ReplaceWith(n.id, n), s)) == Map(ReplaceWith(n.id, n), Shown(s))
    ensures SidesKept(s, n)
  {
    var idx := ShownIndex(s);
    var jdx := ShownIndex(Map(ReplaceWith(n.id, n), s));
    forall i: nat, j: nat | i < |s| && j < |s| && s[i].id == n.id && s[j].id != n.id
      ensures Before(s, i, j) <==> WouldPrecede(s, n, i, j)
    {
      RowsKeepSide(s, n, idx, jdx, i, j);
    }
  }

  /** While no id is split, replacing a message commutes with the rows shown exactly when no held copy
      of it changes sides with a message of another id. */
  lemma RowsKeptIff(s: seq<Message>, n: Message)
    requires !IdSplit(s)
    ensures Shown(Map(ReplaceWith(n.id, n), s)) == Map(ReplaceWith(n.id, n), Shown(s)) <==> SidesKept(s, n)
  {
    var t := Map(ReplaceWith(n.id, n), s);
    if SidesKept(s, n) {
      RowsKept(s, n);
    } else if Shown(t) == Map(ReplaceWith(n.id, n), Shown(s)) {
      ShownDistinct(s);
      MapKeepsDistinct(Shown(s), n);
      DropRepeatsDistinctIff(Sort(t));
      SortedTogetherIff(t);
      RowsKeepSides(s, n);
    }
  }

  lemma MapKeepsDistinct(r: seq<Message>, n: Message)
    requires Distinct(IdList(r))
    ensures IdsDistinct(Map(ReplaceWith(n.id, n), r))
  {
    var q := Map(ReplaceWith(n.id, n), r);
    forall i, j | 0 <= i < j < |q| ensures q[i].id != q[j].id {
      assert IdList(r)[i] != IdList(r)[j];
    }
  }

  // ---------------------------------------------------------------- labels

  ghost predicate KeepsDays(cal: Calendar, f: Message -> Message, ms: seq<Message>) {
    forall i :: 0 <= i < |ms| ==> cal.Day(f(ms[i])) == cal.Day(ms[i])
  }

  lemma HeadsAlike(f: Message -> Message, cal: Calendar, today: int, prev: Option<int>, ms: seq<Message>)
    requires cal.Valid() && ms != []
    requires Labelled(cal, today, prev, Map(f, ms)) == MapRows(f, Labelled(cal, today, prev, ms))
    ensures cal.Day(f(ms[0])) == cal.Day(ms[0])
  {
    var a, b := Labelled(cal, today, prev, Map(f, ms)), Labelled(cal, today, prev, ms);
    assert a[0] == MapRow(f, b[0]);
    if b[0].DateLabel? {
      LabelKeysDiffer(cal, cal.Day(f(ms[0])), cal.Day(ms[0]));
    }
  }

  lemma KeepsDaysHead(cal: Calendar, f: Message -> Message, ms: seq<Message>)
    requires ms != []
    ensures KeepsDays(cal, f, ms) <==> cal.Day(f(ms[0])) == cal.Day(ms[0]) && KeepsDays(cal, f, ms[1..])
  {
    var rest := ms[1..];
    assert forall i :: 0 <= i < |rest| ==> rest[i] == ms[i + 1];
    assert forall i :: 0 < i < |ms| ==> ms[i] == rest[i - 1];
  }

  /** With the first message on its day the rest decides. */
  lemma RestDecides(f: Message -> Message, cal: Calendar, today: int, prev: Option<int>, ms: seq<Message>)
    requires ms != [] && cal.Day(f(ms[0])) == cal.Day(ms[0])
    ensures Labelled(cal, today, prev, Map(f, ms)) == MapRows(f, Labelled(cal, today, prev, ms)) <==>
      var day := Some(cal.Day(ms[0]));
      Labelled(cal, today, day, Map(f, ms[1..])) == MapRows(f, Labelled(cal, today, day, ms[1..]))
  {
    var m, rest := ms[0], ms[1..];
    var day := Some(cal.Day(m));
    var head, tail := Tail(cal, today, prev, m), Labelled(cal, today, day, rest);
    assert Map(f, ms)[1..] == Map(f, rest) && Map(f, ms)[0] == f(m);
    assert Labelled(cal, today, prev, ms) == head + tail;
    assert MapRows(f, head) == Tail(cal, today, prev, f(m));
    assert Labelled(cal, today, prev, Map(f, ms)) == MapRows(f, head) + Labelled(cal, today, day, Map(f, rest));
    MapRowsAppend(f, head, tail);
    SamePrefix(MapRows(f, head), Labelled(cal, today, day, Map(f, rest)), MapRows(f, tail));
  }

  lemma {:induction false} LabelsKeptIff(
    f: Message -> Message, cal: Calendar, today: int, prev: Option<int>, ms: seq<Message>)
    requires cal.Valid()
    ensures Labelled(cal, today, prev, Map(f, ms)) == MapRows(f, Labelled(cal, today, prev, ms))
       <==> KeepsDays(cal, f, ms)
    decreases |ms|
  {
    if ms == [] {
    } else {
      LabelsKeptIff(f, cal, today, Some(cal.Day(ms[0])), ms[1..]);
      KeepsDaysHead(cal, f, ms);
      if cal.Day(f(ms[0])) == cal.Day(ms[0]) {
        RestDecides(f, cal, today, prev, ms);
      } else if Labelled(cal, today, prev, Map(f, ms)) == MapRows(f, Labelled(cal, today, prev, ms)) {
        HeadsAlike(f, cal, today, prev, ms);
      }
    }
  }

  /** A changed timeline shows the changed rows, each on its old day. */
  lemma ViewKeptIff(f: Message -> Message, cal: Calendar, today: int, before: seq<Message>, after: seq<Message>)
    requires cal.Valid()
    ensures Labelled(cal, today, None, after) == MapRows(f, Labelled(cal, today, None, before)) <==>
      after == Map(f, before) && KeepsDays(cal, f, before)
  {
    LabelsKeptIff(f, cal, today, None, before);
    EraseLabelled(cal, today, None, after);
    EraseLabelled(cal, today, None, before);
    EraseMapRows(f, Labelled(cal, today, None, before));
  }

  ghost predicate RowStaysOnDay(cal: Calendar, s: seq<Message>, copy: Message) {
    forall m :: m in Shown(s) && m.id == copy.id ==> cal.Day(m) == cal.Day(copy)
  }

  lemma KeepsDaysIff(cal: Calendar, s: seq<Message>, n: Message)
    ensures KeepsDays(cal, ReplaceWith(n.id, n), Shown(s)) <==> RowStaysOnDay(cal, s, n)
  {
    if KeepsDays(cal, ReplaceWith(n.id, n), Shown(s)) {
      forall m | m in Shown(s) && m.id == n.id ensures cal.Day(m) == cal.Day(n) {
        var i :| 0 <= i < |Shown(s)| && Shown(s)[i] == m;
        assert cal.Day(ReplaceWith(n.id, n)(Shown(s)[i])) == cal.Day(m);
      }
    }
  }

  /** While no id is split, a translation commutes with the whole view exactly when no held copy of its
      message changes sides with another message and the message's row stays on its day. */
  lemma TranslateCommutesIff(cal: Calendar, today: int, s: seq<Message>, copy: Message, text: string)
    requires cal.Valid() && !IdSplit(s)
    ensures var f := ReplaceWith(copy.id, copy.(translated := Some(text)));
      TimelineOf(cal, today, Apply(TranslationOf(copy, text), s)) == MapRows(f, TimelineOf(cal, today, s)) <==>
        SidesKept(s, copy) && RowStaysOnDay(cal, s, copy)
  {
    var n := copy.(translated := Some(text));
    var after := Apply(TranslationOf(copy, text), s);
    assert after == Map(ReplaceWith(n.id, n), s);
    RowsKeptIff(s, n);
    ViewKeptIff(ReplaceWith(n.id, n), cal, today, Shown(s), Shown(after));
    KeepsDaysIff(cal, s, n);
    assert RowStaysOnDay(cal, s, n) <==> RowStaysOnDay(cal, s, copy);
    SidesAlike(s, n, copy);
  }

  lemma SidesAlike(s: seq<Message>, n: Message, m: Message)
    requires n.id == m.id && n.createdAt == m.createdAt
    ensures SidesKept(s, n) <==> SidesKept(s, m)
  {
    assert forall i: nat, j: nat :: i < |s| && j < |s| ==> (WouldPrecede(s, n, i, j) <==> WouldPrecede(s, m, i, j));
  }

  /** It can fail there: translating the first of two copies that stand together, the later of which
      arrived behind another message of the first one's time, puts that message between them. */
  lemma LateCopyTranslation(a: Message, b: Message, c: Message, text: string)
    requires a.id == c.id && b.id != a.id && c.createdAt < a.createdAt && a.createdAt == b.createdAt
    ensures var s := [a, b, c]; var n := a.(translated := Some(text));
      && !IdSplit(s) && Find(s, a.id) == Some(a) && !SidesKept(s, a)
      && Shown(s) == [c, b] && Shown(Apply(TranslationOf(a, text), s)) == [n, b, n]
  {
    var s, n := [a, b, c], a.(translated := Some(text));
    LateCopyRows(a, b, c);
    assert Apply(TranslationOf(a, text), s) == [n, b, n];
    StableSortIff([n, b, n], [n, b, n]);
    ThreeDiffer(n, b, n);
    assert Before(s, 2, 1) && !WouldPrecede(s, a, 2, 1);
  }

  lemma LateCopyRows(a: Message, b: Message, c: Message)
    requires a.id == c.id && b.id != a.id && c.createdAt < a.createdAt && a.createdAt == b.createdAt
    ensures Shown([a, b, c]) == [c, b] && !IdSplit([a, b, c])
  {
    SortedLateCopy(a, b, c);
    DropRepeatsSnoc([c, a], b);
    DropRepeatsSnoc([c], a);
    DropRepeatsSnoc([], c);
    assert [c, a] + [b] == [c, a, b] && [c] + [a] == [c, a] && [] + [c] == [c];
    SortedTogetherIff([a, b, c]);
  }

  lemma LateCopySlices(a: Message, b: Message, c: Message, t: int)
    requires c.createdAt < a.createdAt && a.createdAt == b.createdAt
    ensures AtTime([c, a, b], t) == AtTime([a, b, c], t)
  {
    SliceOfThree(c, a, b, t);
    SliceOfThree(a, b, c, t);
    if c.createdAt != t {
      NoneAtTime([c], t);
    } else {
      NoneAtTime([a], t);
      NoneAtTime([b], t);
    }
  }

  lemma SortedLateCopy(a: Message, b: Message, c: Message)
    requires c.createdAt < a.createdAt && a.createdAt == b.createdAt
    ensures Sort([a, b, c]) == [c, a, b]
  {
    forall t ensures AtTime([c, a, b], t) == AtTime([a, b, c], t) {
      LateCopySlices(a, b, c, t);
    }
    StableSortIff([a, b, c], [c, a, b]);
  }

  lemma {:induction false} EraseMapRows(f: Message -> Message, es: seq<Entry>)
    ensures Erase(MapRows(f, es)) == Map(f, Erase(es))
  {
    if es == [] {
    } else {
      assert MapRows(f, es)[1..] == MapRows(f, es[1..]);
      EraseMapRows(f, es[1..]);
    }
  }
}
