/** Chat messages and the two array passes that order and thin them: the stable sort by creation
    time (section 23.1.3.30 of ECMA-262) and the filter that drops a message whose id equals its
    predecessor's. */
module Messages {
  import opened Sequences

  /** `createdAt` is the number `new Date(created_at)` yields. */
  datatype Message = Message(
    id: string,
    userId: int,
    createdAt: int,
    body: string,
    translated: Option<string>,
    isUnsend: bool,
    deletedFor: set<int>)

  // ---------------------------------------------------------------- stable sort

  ghost predicate Sorted(s: seq<Message>) {
    forall i, j :: 0 <= i < j < |s| ==> s[i].createdAt <= s[j].createdAt
  }

  /** The messages created at `t`, in list order. */
  function AtTime(s: seq<Message>, t: int): seq<Message> {
    if s == [] then []
    else AtTime(DropLast(s), t) + if Last(s).createdAt == t then [Last(s)] else []
  }

  /** What the standard promises of a sort by creation time: the result is ordered, and for every
      instant it holds the same messages in the same relative order. */
  ghost predicate StableSortOf(s: seq<Message>, r: seq<Message>) {
    Sorted(r) && forall t :: AtTime(r, t) == AtTime(s, t)
  }

  /** The number of messages in a sorted list that are not later than `m`. */
  function InsertAt(s: seq<Message>, m: Message): (k: nat)
    ensures k <= |s|
    ensures k > 0 ==> s[k - 1].createdAt <= m.createdAt
    ensures forall i :: k <= i < |s| ==> m.createdAt < s[i].createdAt
  {
    if s == [] || Last(s).createdAt <= m.createdAt then |s| else InsertAt(DropLast(s), m)
  }

  function Insert(s: seq<Message>, m: Message): seq<Message> {
    var k := InsertAt(s, m);
    s[..k] + [m] + s[k..]
  }

  function Sort(s: seq<Message>): seq<Message> {
    if s == [] then [] else Insert(Sort(DropLast(s)), Last(s))
  }

  lemma {:induction false} AtTimeAppend(s: seq<Message>, r: seq<Message>, t: int)
    ensures AtTime(s + r, t) == AtTime(s, t) + AtTime(r, t)
  {
    if r == [] {
      assert s + r == s;
    } else {
      assert DropLast(s + r) == s + DropLast(r);
      AtTimeAppend(s, DropLast(r), t);
    }
  }

  lemma {:induction false} NoneAtTime(s: seq<Message>, t: int)
    requires forall i :: 0 <= i < |s| ==> s[i].createdAt != t
    ensures AtTime(s, t) == []
  {
    if s == [] {
    } else {
      NoneAtTime(DropLast(s), t);
    }
  }

  lemma InsertSorted(s: seq<Message>, m: Message)
    requires Sorted(s)
    ensures Sorted(Insert(s, m))
  {
    var k, r := InsertAt(s, m), Insert(s, m);
    forall i, j | 0 <= i < j < |r| ensures r[i].createdAt <= r[j].createdAt {
      assert k > 0 && i < k ==> s[i].createdAt <= s[k - 1].createdAt;
    }
  }

  lemma {:induction false} SplitAtTime(before: seq<Message>, m: Message, after: seq<Message>, t: int)
    requires forall i :: 0 <= i < |after| ==> m.createdAt < after[i].createdAt
    ensures AtTime(before + [m] + after, t) == AtTime(before + after, t) + AtTime([m], t)
  {
    AtTimeAppend(before, after, t);
    AtTimeAppend(before, [m], t);
    AtTimeAppend(before + [m], after, t);
    if t <= m.createdAt {
      NoneAtTime(after, t);
    } else {
      NoneAtTime([m], t);
    }
  }

  lemma InsertAtTime(s: seq<Message>, m: Message, t: int)
    ensures AtTime(Insert(s, m), t) == AtTime(s, t) + AtTime([m], t)
  {
    var k := InsertAt(s, m);
    SplitAtTime(s[..k], m, s[k..], t);
    assert s[..k] + s[k..] == s;
  }

  lemma {:induction false} SortIsStable(s: seq<Message>)
    ensures StableSortOf(s, Sort(s))
  {
    if s == [] {
    } else {
      var front, m := DropLast(s), Last(s);
      SortIsStable(front);
      InsertSorted(Sort(front), m);
      forall t ensures AtTime(Sort(s), t) == AtTime(s, t) {
        InsertAtTime(Sort(front), m, t);
        AtTimeAppend(front, [m], t);
        assert front + [m] == s;
      }
    }
  }

  lemma {:induction false} AtTimeFindsLater(s: seq<Message>, t: int)
    requires AtTime(s, t) != [] && Sorted(s)
    ensures s != [] && t <= Last(s).createdAt
  {
    if Last(s).createdAt == t {
    } else {
      AtTimeFindsLater(DropLast(s), t);
      assert DropLast(s)[|s| - 2].createdAt <= s[|s| - 1].createdAt;
    }
  }

  lemma AtTimeDropLast(s: seq<Message>, t: int)
    requires s != []
    ensures Last(s).createdAt == t ==> AtTime(s, t) == AtTime(DropLast(s), t) + [Last(s)]
    ensures Last(s).createdAt == t ==> AtTime(s, t) != [] && Last(AtTime(s, t)) == Last(s)
    ensures Last(s).createdAt == t ==> AtTime(DropLast(s), t) == DropLast(AtTime(s, t))
    ensures Last(s).createdAt != t ==> AtTime(DropLast(s), t) == AtTime(s, t)
  {
  }

  ghost predicate SameSlices(r: seq<Message>, q: seq<Message>) {
    forall t :: AtTime(r, t) == AtTime(q, t)
  }

  lemma SameSlicesLatest(r: seq<Message>, q: seq<Message>)
    requires Sorted(r) && Sorted(q) && SameSlices(r, q) && r != []
    ensures q != [] && Last(r).createdAt <= Last(q).createdAt
  {
    var t := Last(r).createdAt;
    AtTimeDropLast(r, t);
    assert AtTime(q, t) == AtTime(r, t);
    AtTimeFindsLater(q, t);
  }

  lemma SameSlicesLast(r: seq<Message>, q: seq<Message>)
    requires SameSlices(r, q) && r != [] && q != [] && Last(r).createdAt == Last(q).createdAt
    ensures Last(r) == Last(q) && SameSlices(DropLast(r), DropLast(q))
  {
    var t := Last(r).createdAt;
    assert AtTime(q, t) == AtTime(r, t);
    AtTimeDropLast(r, t);
    AtTimeDropLast(q, t);
    forall u ensures AtTime(DropLast(r), u) == AtTime(DropLast(q), u) {
      assert AtTime(r, u) == AtTime(q, u);
      AtTimeDropLast(r, u);
      AtTimeDropLast(q, u);
    }
  }

  lemma {:induction false} SameSlicesSameList(r: seq<Message>, q: seq<Message>)
    requires Sorted(r) && Sorted(q) && SameSlices(r, q)
    ensures r == q
    decreases |r|
  {
    if r == [] {
      SameSlicesEmpty(q);
    } else {
      SameSlicesLatest(r, q);
      SameSlicesLatest(q, r);
      SameSlicesLast(r, q);
      SameSlicesSameList(DropLast(r), DropLast(q));
      assert r == DropLast(r) + [Last(r)] && q == DropLast(q) + [Last(q)];
    }
  }

  lemma SameSlicesEmpty(q: seq<Message>)
    requires SameSlices([], q)
    ensures q == []
  {
    assert forall t :: AtTime([], t) == [];
    assert q != [] ==> AtTime(q, Last(q).createdAt) != [];
  }

  /** Any list the platform's stable sort may return is `Sort(s)`, so nothing below depends on how
      that sort works. */
  lemma StableSortIff(s: seq<Message>, r: seq<Message>)
    ensures StableSortOf(s, r) <==> r == Sort(s)
  {
    SortIsStable(s);
    if StableSortOf(s, r) {
      SameSlicesSameList(r, Sort(s));
    }
  }

  // ---------------------------------------------------------------- sorted positions

  /** Message `i` precedes message `j` once the list is sorted: it is older, or as old and arrived
      first. */
  predicate Before(s: seq<Message>, i: nat, j: nat)
    requires i < |s| && j < |s|
  {
    s[i].createdAt < s[j].createdAt || (s[i].createdAt == s[j].createdAt && i < j)
  }

  /** `r` lists the messages of `s` with the indices `perm`, each index preceding the next ones. */
  ghost predicate ListedBy(s: seq<Message>, r: seq<Message>, perm: seq<nat>) {
    && |perm| == |r|
    && (forall p :: 0 <= p < |perm| ==> perm[p] < |s| && r[p] == s[perm[p]])
    && (forall p, q :: 0 <= p < q < |perm| ==> Before(s, perm[p], perm[q]))
  }

  /** `perm` lists all the indices of `s` in sorted order. */
  ghost predicate SortsBy(s: seq<Message>, perm: seq<nat>) {
    ListedBy(s, Sort(s), perm) && forall i: nat :: i < |s| ==> i in perm
  }

  /** `k` splits `r` into messages not later than `m` and messages later than `m`. */
  ghost predicate SplitsAt(r: seq<Message>, m: Message, k: nat) {
    && k <= |r|
    && (forall i :: 0 <= i < k ==> r[i].createdAt <= m.createdAt)
    && (forall i :: k <= i < |r| ==> m.createdAt < r[i].createdAt)
  }

  lemma InsertAtSplits(r: seq<Message>, m: Message)
    requires Sorted(r)
    ensures SplitsAt(r, m, InsertAt(r, m))
  {
    var k := InsertAt(r, m);
    assert forall i :: 0 <= i < k ==> r[i].createdAt <= r[k - 1].createdAt;
  }

  lemma InsertedBefore(s: seq<Message>, r: seq<Message>, front: seq<nat>, k: nat, p: nat, q: nat)
    requires s != [] && ListedBy(s, r, front) && SplitsAt(r, Last(s), k)
    requires forall p :: 0 <= p < |front| ==> front[p] < |s| - 1
    requires p < q <= |front|
    ensures var perm := front[..k] + [|s| - 1] + front[k..];
      perm[p] < |s| && perm[q] < |s| && Before(s, perm[p], perm[q])
  {
    if p != k && q != k {
      var p', q' := if p < k then p else p - 1, if q < k then q else q - 1;
      assert Before(s, front[p'], front[q']);
    } else if q == k {
      assert r[p].createdAt <= Last(s).createdAt;
    } else {
      assert Last(s).createdAt < r[q - 1].createdAt;
    }
  }

  lemma InsertListed(s: seq<Message>, r: seq<Message>, front: seq<nat>, k: nat)
    requires s != [] && ListedBy(s, r, front) && SplitsAt(r, Last(s), k)
    requires forall p :: 0 <= p < |front| ==> front[p] < |s| - 1
    ensures ListedBy(s, r[..k] + [Last(s)] + r[k..], front[..k] + [|s| - 1] + front[k..])
  {
    var perm := front[..k] + [|s| - 1] + front[k..];
    forall p, q | 0 <= p < q < |perm| ensures perm[p] < |s| && perm[q] < |s| && Before(s, perm[p], perm[q]) {
      InsertedBefore(s, r, front, k, p, q);
    }
  }

  lemma ListedInFront(s: seq<Message>, r: seq<Message>, front: seq<nat>)
    requires s != [] && ListedBy(DropLast(s), r, front)
    ensures ListedBy(s, r, front)
  {
    forall p, q | 0 <= p < q < |front| ensures front[q] < |s| && Before(s, front[p], front[q]) {
      assert Before(DropLast(s), front[p], front[q]);
    }
  }

  lemma InsertedMembers(front: seq<nat>, k: nat, n: nat)
    requires k <= |front|
    ensures forall i: nat :: i in front || i == n ==> i in front[..k] + [n] + front[k..]
  {
    assert front == front[..k] + front[k..];
  }

  lemma {:induction false} SortOrder(s: seq<Message>) returns (perm: seq<nat>)
    ensures SortsBy(s, perm)
  {
    if s == [] {
      perm := [];
    } else {
      var front := SortOrder(DropLast(s));
      var r, n := Sort(DropLast(s)), |s| - 1;
      SortIsStable(DropLast(s));
      ListedInFront(s, r, front);
      var k := InsertAt(r, Last(s));
      InsertAtSplits(r, Last(s));
      InsertListed(s, r, front, k);
      perm := front[..k] + [n] + front[k..];
      InsertedMembers(front, k, n);
      assert forall i: nat :: i < n ==> i in front;
    }
  }

  // ---------------------------------------------------------------- adjacent filter

  /** The test of `.filter((message, index, self) => ...)`. */
  predicate DiffersFromPrevious(s: seq<Message>, index: nat)
    requires index < |s|
  {
    index == 0 || s[index].id != s[index - 1].id
  }

  function KeptUpTo(s: seq<Message>, n: nat): seq<Message>
    requires n <= |s|
  {
    if n == 0 then []
    else KeptUpTo(s, n - 1) + if DiffersFromPrevious(s, n - 1) then [s[n - 1]] else []
  }

  function DropRepeats(s: seq<Message>): seq<Message> {
    KeptUpTo(s, |s|)
  }

  lemma {:induction false} KeptUpToPrefix(s: seq<Message>, t: seq<Message>, n: nat)
    requires n <= |s|
    ensures KeptUpTo(s + t, n) == KeptUpTo(s, n)
  {
    if n == 0 {
    } else {
      KeptUpToPrefix(s, t, n - 1);
    }
  }

  /** Dropping repeats works left to right: the last message decides alone. */
  lemma DropRepeatsSnoc(s: seq<Message>, m: Message)
    ensures DropRepeats(s + [m]) == DropRepeats(s) + if s != [] && Last(s).id == m.id then [] else [m]
  {
    KeptUpToPrefix(s, [m], |s|);
  }

  /** What becomes of `t` depends on what stands before it only through the last id. */
  lemma {:induction false} DropRepeatsSuffix(s: seq<Message>, r: seq<Message>, t: seq<Message>)
    returns (tail: seq<Message>)
    requires s != [] && r != [] && Last(s).id == Last(r).id
    ensures DropRepeats(s + t) == DropRepeats(s) + tail
    ensures DropRepeats(r + t) == DropRepeats(r) + tail
  {
    if t == [] {
      assert s + t == s && r + t == r;
      tail := [];
    } else {
      var m := Last(t);
      var front := DropRepeatsSuffix(s, r, DropLast(t));
      assert s + t == (s + DropLast(t)) + [m] && r + t == (r + DropLast(t)) + [m];
      DropRepeatsSnoc(s + DropLast(t), m);
      DropRepeatsSnoc(r + DropLast(t), m);
      tail := front + if Last(s + DropLast(t)).id == m.id then [] else [m];
    }
  }

  /** Extending a list only extends what is kept of it. */
  lemma {:induction false} DropRepeatsExtends(s: seq<Message>, t: seq<Message>) returns (tail: seq<Message>)
    ensures DropRepeats(s + t) == DropRepeats(s) + tail
    ensures forall m :: m in tail ==> m in t
  {
    if t == [] {
      assert s + t == s;
      tail := [];
    } else {
      var front := DropRepeatsExtends(s, DropLast(t));
      assert s + t == (s + DropLast(t)) + [Last(t)];
      DropRepeatsSnoc(s + DropLast(t), Last(t));
      tail := front + if s + DropLast(t) != [] && Last(s + DropLast(t)).id == Last(t).id then [] else [Last(t)];
    }
  }

  ghost function Ids(s: seq<Message>): set<string> {
    set m | m in s :: m.id
  }

  ghost predicate IdsDistinct(s: seq<Message>) {
    forall i, j :: 0 <= i < j < |s| ==> s[i].id != s[j].id
  }

  /** No message stands between two others that share an id not its own. */
  ghost predicate IdsTogether(s: seq<Message>) {
    forall i, j, k :: 0 <= i < j < k < |s| && s[i].id == s[k].id ==> s[j].id == s[i].id
  }

  lemma {:induction false} DropRepeatsIds(s: seq<Message>)
    ensures Ids(DropRepeats(s)) == Ids(s)
    ensures forall m :: m in DropRepeats(s) ==> m in s
  {
    if s == [] {
    } else {
      var front, m := DropLast(s), Last(s);
      assert s == front + [m];
      DropRepeatsIds(front);
      DropRepeatsSnoc(front, m);
      assert Ids(s) == Ids(front) + {m.id};
      if front != [] && Last(front).id == m.id {
        assert Last(front) in front;
      } else {
        assert Ids(DropRepeats(s)) == Ids(DropRepeats(front)) + {m.id};
      }
    }
  }

  lemma IdsTogetherExtend(s: seq<Message>, m: Message)
    requires IdsTogether(s) && (s == [] || Last(s).id == m.id || m.id !in Ids(s))
    ensures IdsTogether(s + [m])
  {
    var t := s + [m];
    forall i, j, k | 0 <= i < j < k < |t| && t[i].id == t[k].id ensures t[j].id == t[i].id {
      assert t[i] == s[i] && t[j] == s[j] && s[i].id in Ids(s);
      if k < |s| {
        assert t[k] == s[k];
      } else if j < |s| - 1 {
        assert s[i].id == s[|s| - 1].id;
      }
    }
  }

  lemma IdsTogetherShrink(s: seq<Message>, m: Message)
    requires IdsTogether(s + [m])
    ensures IdsTogether(s) && (s == [] || Last(s).id == m.id || m.id !in Ids(s))
  {
    var t := s + [m];
    assert forall i :: 0 <= i < |s| ==> s[i] == t[i];
    if m.id in Ids(s) {
      var x :| x in s && x.id == m.id;
      var i :| 0 <= i < |s| && s[i] == x;
      if i < |s| - 1 {
        assert t[i].id == t[|s|].id;
        assert t[|s| - 1].id == t[i].id;
      }
    }
  }

  lemma IdsDistinctSnoc(s: seq<Message>, m: Message)
    ensures IdsDistinct(s + [m]) <==> IdsDistinct(s) && m.id !in Ids(s)
  {
    var t := s + [m];
    assert forall i :: 0 <= i < |s| ==> t[i] == s[i] && s[i].id in Ids(s);
    if IdsDistinct(t) {
      forall i | 0 <= i < |s| ensures s[i].id != m.id {
        assert t[i].id != t[|s|].id;
      }
    }
  }

  /** The adjacent filter de-duplicates exactly the lists whose equal ids stand together. */
  lemma {:induction false} DropRepeatsDistinctIff(s: seq<Message>)
    ensures IdsDistinct(DropRepeats(s)) <==> IdsTogether(s)
  {
    if s == [] {
    } else {
      var front, m := DropLast(s), Last(s);
      assert s == front + [m];
      DropRepeatsDistinctIff(front);
      DropRepeatsSnoc(front, m);
      DropRepeatsIds(front);
      if IdsTogether(s) {
        IdsTogetherShrink(front, m);
      } else if IdsTogether(front) && (front == [] || Last(front).id == m.id || m.id !in Ids(front)) {
        IdsTogetherExtend(front, m);
      }
      if front != [] && Last(front).id == m.id {
        assert DropRepeats(s) == DropRepeats(front);
      } else {
        IdsDistinctSnoc(DropRepeats(front), m);
      }
    }
  }
}
