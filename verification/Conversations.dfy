/** The conversation list: rows of memberships reduced to one per conversation, and the search over
    them. */
module Conversations {
  import opened Sequences

  /** `name` is the title, name or group label shown for the row, or `None` for a missing user. */
  datatype Row = Row(conversationId: string, name: Option<string>, deletedFor: set<int>)

  // ---------------------------------------------------------------- reduction

  predicate HasId(rows: seq<Row>, id: string) {
    exists i :: 0 <= i < |rows| && rows[i].conversationId == id
  }

  ghost function Ids(rows: seq<Row>): set<string> {
    set r | r in rows :: r.conversationId
  }

  /** Row `i` is the first of its conversation. */
  predicate FirstOfId(rows: seq<Row>, i: nat)
    requires i < |rows|
  {
    !HasId(rows[..i], rows[i].conversationId)
  }

  /** The first rows of their conversations, in order, among the first `n`. */
  function FirstsUpTo(rows: seq<Row>, n: nat): seq<Row>
    requires n <= |rows|
  {
    if n == 0 then [] else FirstsUpTo(rows, n - 1) + if FirstOfId(rows, n - 1) then [rows[n - 1]] else []
  }

  function Firsts(rows: seq<Row>): seq<Row> {
    FirstsUpTo(rows, |rows|)
  }

  ghost predicate IdsDistinct(rows: seq<Row>) {
    forall i, j :: 0 <= i < j < |rows| ==> rows[i].conversationId != rows[j].conversationId
  }

  lemma HasIdIff(rows: seq<Row>, id: string)
    ensures HasId(rows, id) <==> id in Ids(rows)
  {
    if id in Ids(rows) {
      var r :| r in rows && r.conversationId == id;
      var i :| 0 <= i < |rows| && rows[i] == r;
    }
  }

  lemma IdsSnoc(rows: seq<Row>, n: nat)
    requires n < |rows|
    ensures Ids(rows[..n + 1]) == Ids(rows[..n]) + {rows[n].conversationId}
  {
    assert rows[..n + 1] == rows[..n] + [rows[n]];
  }

  lemma IdsAppended(rows: seq<Row>, r: Row)
    ensures Ids(rows + [r]) == Ids(rows) + {r.conversationId}
    ensures IdsDistinct(rows) && r.conversationId !in Ids(rows) ==> IdsDistinct(rows + [r])
  {
    assert forall i :: 0 <= i < |rows| ==> rows[i] in rows && rows[i].conversationId in Ids(rows);
  }

  lemma {:induction false} FirstsIds(rows: seq<Row>, n: nat)
    requires n <= |rows|
    ensures Ids(FirstsUpTo(rows, n)) == Ids(rows[..n])
    ensures IdsDistinct(FirstsUpTo(rows, n))
  {
    if n == 0 {
    } else {
      var front, r := FirstsUpTo(rows, n - 1), rows[n - 1];
      FirstsIds(rows, n - 1);
      IdsSnoc(rows, n - 1);
      HasIdIff(rows[..n - 1], r.conversationId);
      if FirstOfId(rows, n - 1) {
        IdsAppended(front, r);
      } else {
        assert FirstsUpTo(rows, n) == front;
      }
    }
  }

  /** `reduce` with an accumulator that takes a row when no row of its conversation is found in it. */
  method Unique(rows: seq<Row>) returns (acc: seq<Row>)
    ensures acc == Firsts(rows)
  {
    acc := [];
    for n := 0 to |rows|
      invariant acc == FirstsUpTo(rows, n)
    {
      var current := rows[n];
      FirstsIds(rows, n);
      HasIdIff(acc, current.conversationId);
      HasIdIff(rows[..n], current.conversationId);
      if !HasId(acc, current.conversationId) {
        acc := acc + [current];
      }
    }
  }

  lemma {:induction false} FirstsOfDistinct(rows: seq<Row>, n: nat)
    requires IdsDistinct(rows) && n <= |rows|
    ensures FirstsUpTo(rows, n) == rows[..n]
  {
    if n == 0 {
    } else {
      FirstsOfDistinct(rows, n - 1);
      assert rows[..n] == rows[..n - 1] + [rows[n - 1]];
    }
  }

  lemma {:induction false} FirstsMembers(rows: seq<Row>, n: nat, r: Row)
    requires n <= |rows|
    ensures r in FirstsUpTo(rows, n) <==> exists i: nat :: i < n && rows[i] == r && FirstOfId(rows, i)
  {
    if n == 0 {
    } else {
      FirstsMembers(rows, n - 1, r);
    }
  }

  /** The reduction keeps exactly the first row of each conversation, loses none, repeats none and
      has nothing left to remove. */
  lemma FirstsCharacterised(rows: seq<Row>)
    ensures forall r :: r in Firsts(rows) <==> exists i: nat :: i < |rows| && rows[i] == r && FirstOfId(rows, i)
    ensures Ids(Firsts(rows)) == Ids(rows)
    ensures IdsDistinct(Firsts(rows))
    ensures Firsts(Firsts(rows)) == Firsts(rows)
  {
    forall r ensures r in Firsts(rows) <==> exists i: nat :: i < |rows| && rows[i] == r && FirstOfId(rows, i) {
      FirstsMembers(rows, |rows|, r);
    }
    FirstsIds(rows, |rows|);
    assert rows[..|rows|] == rows;
    var f := Firsts(rows);
    FirstsOfDistinct(f, |f|);
    assert f[..|f|] == f;
  }

  // ---------------------------------------------------------------- search

  /** `toLowerCase`, letter by letter. */
  type Lowering = char -> string

  function Lower(low: Lowering, s: string): string {
    if s == [] then [] else low(s[0]) + Lower(low, s[1..])
  }

  predicate OccursAt(s: string, t: string, i: nat) {
    i + |t| <= |s| && s[i..i + |t|] == t
  }

  /** `s.includes(t)`. */
  predicate Includes(s: string, t: string) {
    exists i :: 0 <= i <= |s| && OccursAt(s, t, i)
  }

  predicate Matches(low: Lowering, r: Row, text: string) {
    r.name.Some? && Includes(Lower(low, r.name.value), Lower(low, text))
  }

  function MatchesText(low: Lowering, text: string): Row -> bool {
    (r: Row) => Matches(low, r, text)
  }

  function Matching(low: Lowering, rows: seq<Row>, text: string): seq<Row> {
    Filter(MatchesText(low, text), rows)
  }

  /** What `handleSearch` shows for `text`. */
  function Found(low: Lowering, rows: seq<Row>, text: string): seq<Row> {
    if Blank(text) then Firsts(rows) else Firsts(Matching(low, rows, text))
  }

  lemma {:induction false} LowerAppend(low: Lowering, s: string, t: string)
    ensures Lower(low, s + t) == Lower(low, s) + Lower(low, t)
  {
    if s == [] {
      assert s + t == t;
    } else {
      assert (s + t)[1..] == s[1..] + t && (s + t)[0] == s[0];
      LowerAppend(low, s[1..], t);
      assert low(s[0]) + (Lower(low, s[1..]) + Lower(low, t)) == low(s[0]) + Lower(low, s[1..]) + Lower(low, t);
    }
  }

  lemma LowerIncludes(low: Lowering, s: string, t: string)
    requires Includes(s, t)
    ensures Includes(Lower(low, s), Lower(low, t))
  {
    var i :| 0 <= i <= |s| && OccursAt(s, t, i);
    var a, b := s[..i], s[i + |t|..];
    assert s == a + t + b;
    LowerAppend(low, a + t, b);
    LowerAppend(low, a, t);
    var l, m := Lower(low, s), Lower(low, t);
    assert l == Lower(low, a) + m + Lower(low, b);
    assert OccursAt(l, m, |Lower(low, a)|);
  }

  lemma IncludesTransitive(s: string, t: string, u: string)
    requires Includes(s, t) && Includes(t, u)
    ensures Includes(s, u)
  {
    var i :| 0 <= i <= |s| && OccursAt(s, t, i);
    var j :| 0 <= j <= |t| && OccursAt(t, u, j);
    forall k | 0 <= k < |u| ensures s[i + j + k] == u[k] {
      assert s[i..i + |t|][j + k] == t[j + k];
      assert t[j..j + |u|][k] == u[k];
    }
    assert OccursAt(s, u, i + j);
  }

  lemma FoundIds(low: Lowering, rows: seq<Row>, text: string)
    ensures Ids(Found(low, rows, text)) == if Blank(text) then Ids(rows) else Ids(Matching(low, rows, text))
    ensures Ids(Found(low, rows, text)) <= Ids(rows)
  {
    FirstsCharacterised(rows);
    FirstsCharacterised(Matching(low, rows, text));
    FilterMembers(MatchesText(low, text), rows);
  }

  lemma LowerLetter(low: Lowering, c: char)
    ensures Lower(low, [c]) == low(c) && Lower(low, "") == ""
  {
    assert [c][1..] == [];
  }

  /** `s.includes(t)`. */
  lemma IncludesIff(s: string, t: string)
    ensures Includes(s, t) <==> exists a: string, b: string :: s == a + t + b
  {
    if Includes(s, t) {
      var i :| 0 <= i <= |s| && OccursAt(s, t, i);
      assert s == s[..i] + t + s[i + |t|..];
    }
    if a: string, b: string :| s == a + t + b {
      assert s[|a|..|a| + |t|] == t;
      assert OccursAt(s, t, |a|);
    }
  }

  /** Row `r` has a name, and lowered it contains the lowered query. */
  ghost predicate NameContains(low: Lowering, r: Row, text: string) {
    r.name.Some? && exists a: string, b: string :: Lower(low, r.name.value) == a + Lower(low, text) + b
  }

  /** A search that is not blank finds exactly the conversations of loaded rows whose lowered name
      contains the lowered query; a blank one finds all. */
  lemma FoundIff(low: Lowering, rows: seq<Row>, text: string, id: string)
    ensures id in Ids(Found(low, rows, text)) <==>
      exists r :: r in rows && r.conversationId == id && (Blank(text) || NameContains(low, r, text))
  {
    FoundIds(low, rows, text);
    FilterMembers(MatchesText(low, text), rows);
    forall r: Row ensures Matches(low, r, text) <==> NameContains(low, r, text) {
      MatchesIff(low, r, text);
    }
  }

  lemma MatchesIff(low: Lowering, r: Row, text: string)
    ensures Matches(low, r, text) <==> NameContains(low, r, text)
  {
    if r.name.Some? {
      IncludesIff(Lower(low, r.name.value), Lower(low, text));
    }
  }

  /** Every row found is a loaded one that matches itself. */
  lemma ShownMatch(low: Lowering, rows: seq<Row>, text: string)
    ensures forall r :: r in Found(low, rows, text) ==> r in rows && (Blank(text) || NameContains(low, r, text))
  {
    FirstsCharacterised(rows);
    FirstsCharacterised(Matching(low, rows, text));
    FilterMembers(MatchesText(low, text), rows);
    forall r: Row ensures Matches(low, r, text) <==> NameContains(low, r, text) {
      MatchesIff(low, r, text);
    }
  }

  /** Searching for part of a query finds at least the conversations the query finds. */
  lemma ShorterQueryFindsMore(low: Lowering, rows: seq<Row>, text: string, part: string)
    requires Includes(text, part)
    ensures Ids(Found(low, rows, text)) <= Ids(Found(low, rows, part))
  {
    FoundIds(low, rows, text);
    FoundIds(low, rows, part);
    if !Blank(part) {
      assert !Blank(text) by {
        var i :| 0 <= i <= |text| && OccursAt(text, part, i);
        var j :| 0 <= j < |part| && !IsSpace(part[j]);
        assert text[i + j] == part[j];
      }
      LowerIncludes(low, text, part);
      FilterMembers(MatchesText(low, text), rows);
      FilterMembers(MatchesText(low, part), rows);
      forall r | r in rows && Matches(low, r, text) ensures Matches(low, r, part) {
        IncludesTransitive(Lower(low, r.name.value), Lower(low, text), Lower(low, part));
      }
    }
  }

  // ---------------------------------------------------------------- runs

  /** The loaded rows and the rows shown. */
  datatype State = State(all: seq<Row>, shown: seq<Row>)

  datatype Event = Load(rows: seq<Row>) | Search(text: string) | Delete(id: string)

  function Visible(rows: seq<Row>, me: int): seq<Row> {
    Filter((r: Row) => me !in r.deletedFor, rows)
  }

  function OtherThan(id: string): Row -> bool {
    (r: Row) => r.conversationId != id
  }

  function Other(rows: seq<Row>, id: string): seq<Row> {
    Filter(OtherThan(id), rows)
  }

  function Step(low: Lowering, me: int, st: State, e: Event): State {
    match e
    case Load(rows) => State(Visible(rows, me), Firsts(Visible(rows, me)))
    case Search(text) => st.(shown := Found(low, st.all, text))
    case Delete(id) => st.(shown := Other(st.shown, id))
  }

  function Run(low: Lowering, me: int, es: seq<Event>): State {
    if es == [] then State([], []) else Step(low, me, Run(low, me, DropLast(es)), Last(es))
  }

  lemma OtherDistinct(rows: seq<Row>, id: string)
    requires IdsDistinct(rows)
    ensures IdsDistinct(Other(rows, id))
    ensures Ids(Other(rows, id)) == Ids(rows) - {id}
  {
    FilterMembers(OtherThan(id), rows);
    FilterPairwise(OtherThan(id), rows, (r: Row, q: Row) => r.conversationId != q.conversationId);
    forall r | r in rows && r.conversationId != id ensures r.conversationId in Ids(Other(rows, id)) {
      assert r in Other(rows, id);
    }
  }

  /** A load holds the rows the user has not deleted. */
  lemma LoadedVisible(low: Lowering, me: int, st: State, rows: seq<Row>)
    ensures var s := Step(low, me, st, Load(rows));
      && (forall r :: r in s.all <==> r in rows && me !in r.deletedFor)
      && s.shown == Firsts(s.all)
  {
    FilterMembers((r: Row) => me !in r.deletedFor, rows);
  }

  /** A delete takes the rows of its conversation off the screen, and no others; the loaded rows stay. */
  lemma DeleteHidesOnly(low: Lowering, me: int, st: State, id: string)
    ensures var s := Step(low, me, st, Delete(id));
      s.all == st.all && forall r :: r in s.shown <==> r in st.shown && r.conversationId != id
  {
    FilterMembers(OtherThan(id), st.shown);
  }

  /** A search leaves the loaded rows alone and shows the first matching row of each conversation. */
  lemma SearchShows(low: Lowering, me: int, st: State, text: string)
    ensures var s := Step(low, me, st, Search(text));
      && s.all == st.all
      && (forall id :: id in Ids(s.shown) <==>
            exists r :: r in st.all && r.conversationId == id && (Blank(text) || NameContains(low, r, text)))
      && (forall r :: r in s.shown ==> r in st.all && (Blank(text) || NameContains(low, r, text)))
  {
    ShownMatch(low, st.all, text);
    forall id ensures id in Ids(Step(low, me, st, Search(text)).shown) <==>
      exists r :: r in st.all && r.conversationId == id && (Blank(text) || NameContains(low, r, text))
    {
      FoundIff(low, st.all, text, id);
    }
  }

  /** In every run each conversation is shown at most once, and only if it is loaded. */
  lemma {:induction false} ShownOnce(low: Lowering, me: int, es: seq<Event>)
    ensures var st := Run(low, me, es); IdsDistinct(st.shown) && Ids(st.shown) <= Ids(st.all)
  {
    if es == [] {
    } else {
      var st := Run(low, me, DropLast(es));
      ShownOnce(low, me, DropLast(es));
      match Last(es)
      case Load(rows) =>
        FirstsCharacterised(Visible(rows, me));
      case Search(text) =>
        FoundIds(low, st.all, text);
        FirstsCharacterised(st.all);
        FirstsCharacterised(Matching(low, st.all, text));
      case Delete(id) =>
        OtherDistinct(st.shown, id);
    }
  }

  /** Whatever was searched and deleted before, a blank search shows every loaded conversation
      again, a deleted one included. */
  lemma BlankSearchRestores(low: Lowering, me: int, es: seq<Event>, id: string, blank: string)
    requires Blank(blank)
    ensures var st := Run(low, me, es + [Delete(id), Search(blank)]);
      && st.all == Run(low, me, es).all && st.shown == Firsts(st.all)
      && (id in Ids(st.shown) <==> id in Ids(st.all))
    ensures id !in Ids(Run(low, me, es + [Delete(id)]).shown)
  {
    var deleted := es + [Delete(id)];
    assert DropLast(deleted) == es;
    assert DropLast(es + [Delete(id), Search(blank)]) == deleted;
    FirstsCharacterised(Run(low, me, es).all);
    ShownOnce(low, me, es);
    OtherDistinct(Run(low, me, es).shown, id);
  }

  // ---------------------------------------------------------------- the screen

  class MessageScreen {
    const low: Lowering
    const me: int
    var allConversations: seq<Row>
    var uniqueConversations: seq<Row>
    var searchText: string

    function Abs(): State
      reads this
    {
      State(allConversations, uniqueConversations)
    }

    constructor (low: Lowering, me: int)
      ensures this.low == low && this.me == me
      ensures Abs() == State([], []) && searchText == ""
    {
      this.low, this.me := low, me;
      allConversations, uniqueConversations, searchText := [], [], "";
    }

    /** `handleGetConversations` on an answer. */
    method HandleGetConversations(rows: seq<Row>)
      modifies this`allConversations, this`uniqueConversations
      ensures Abs() == Step(low, me, old(Abs()), Load(rows))
    {
      var filteredConversations := Visible(rows, me);
      allConversations := filteredConversations;
      uniqueConversations := Unique(filteredConversations);
    }

    method HandleSearch(text: string)
      modifies this`uniqueConversations, this`searchText
      ensures searchText == text && Abs() == Step(low, me, old(Abs()), Search(text))
    {
      searchText := text;
      if Blank(text) {
        uniqueConversations := Unique(allConversations);
      } else {
        uniqueConversations := Unique(Matching(low, allConversations, text));
      }
    }

    /** `handleDeleteConversation` on success. */
    method HandleDeleteConversation(id: string)
      modifies this`uniqueConversations
      ensures Abs() == Step(low, me, old(Abs()), Delete(id))
    {
      uniqueConversations := Other(uniqueConversations, id);
    }
  }
}
