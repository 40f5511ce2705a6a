/** Sequence helpers shared by the screen models. */
module Sequences {

  datatype Option<+T> = None | Some(value: T)

  function Last<T>(s: seq<T>): T
    requires s != []
  {
    s[|s| - 1]
  }

  function DropLast<T>(s: seq<T>): seq<T>
    requires s != []
  {
    s[..|s| - 1]
  }

  ghost predicate Distinct<T>(s: seq<T>) {
    forall i, j :: 0 <= i < j < |s| ==> s[i] != s[j]
  }

  /** `array.map(f)`. */
  function Map<A, B>(f: A -> B, s: seq<A>): (r: seq<B>)
    ensures |r| == |s|
    ensures forall i :: 0 <= i < |s| ==> r[i] == f(s[i])
  {
    seq(|s|, i requires 0 <= i < |s| => f(s[i]))
  }

  /** `array.filter(p)`. */
  function Filter<T>(p: T -> bool, s: seq<T>): seq<T> {
    if s == [] then []
    else if p(Last(s)) then Filter(p, DropLast(s)) + [Last(s)]
    else Filter(p, DropLast(s))
  }

  lemma {:induction false} FilterMembers<T(!new)>(p: T -> bool, s: seq<T>)
    ensures |Filter(p, s)| <= |s|
    ensures forall x :: x in Filter(p, s) <==> x in s && p(x)
  {
    if s == [] {
    } else {
      FilterMembers(p, DropLast(s));
      assert s == DropLast(s) + [Last(s)];
    }
  }

  /** What holds between all pairs of elements holds between those kept. */
  lemma {:induction false} FilterPairwise<T(!new)>(p: T -> bool, s: seq<T>, rel: (T, T) -> bool)
    requires forall i, j :: 0 <= i < j < |s| ==> rel(s[i], s[j])
    ensures forall i, j :: 0 <= i < j < |Filter(p, s)| ==> rel(Filter(p, s)[i], Filter(p, s)[j])
  {
    if s == [] {
    } else {
      var kept := Filter(p, DropLast(s));
      FilterPairwise(p, DropLast(s), rel);
      FilterMembers(p, DropLast(s));
      forall i | 0 <= i < |kept| ensures rel(kept[i], Last(s)) {
        assert kept[i] in DropLast(s);
        var j :| 0 <= j < |s| - 1 && s[j] == kept[i];
      }
    }
  }

  /** `array.slice(0, n)`. */
  function Take<T>(s: seq<T>, n: nat): (r: seq<T>)
    ensures r <= s && |r| == if |s| <= n then |s| else n
  {
    if |s| <= n then s else s[..n]
  }

  /** `array.slice(-n)` for positive `n`. */
  function TakeLast<T>(s: seq<T>, n: nat): (r: seq<T>)
    ensures |r| == if |s| <= n then |s| else n
    ensures r == s[|s| - |r|..]
  {
    if |s| <= n then s else s[|s| - n..]
  }

  lemma {:induction false} FilterAppend<T>(p: T -> bool, s: seq<T>, t: seq<T>)
    ensures Filter(p, s + t) == Filter(p, s) + Filter(p, t)
  {
    if t == [] {
      assert s + t == s;
    } else {
      var front, x := DropLast(t), Last(t);
      assert DropLast(s + t) == s + front && Last(s + t) == x;
      FilterAppend(p, s, front);
      if p(x) {
        assert Filter(p, s) + Filter(p, front) + [x] == Filter(p, s) + (Filter(p, front) + [x]);
      }
    }
  }

  lemma {:induction false} FilterAll<T>(p: T -> bool, s: seq<T>)
    requires forall i :: 0 <= i < |s| ==> p(s[i])
    ensures Filter(p, s) == s
  {
    if s == [] {
    } else {
      FilterAll(p, s[..|s| - 1]);
      assert s == s[..|s| - 1] + [s[|s| - 1]];
    }
  }

  lemma {:induction false} DistinctCardinality<T>(s: seq<T>)
    requires Distinct(s)
    ensures |(set x | x in s)| == |s|
  {
    if s == [] {
    } else {
      DistinctCardinality(DropLast(s));
      assert (set x | x in s) == (set x | x in DropLast(s)) + {Last(s)};
      assert Last(s) !in DropLast(s);
    }
  }

  lemma SamePrefix<T>(p: seq<T>, a: seq<T>, b: seq<T>)
    ensures p + a == p + b <==> a == b
  {
    assert (p + a)[|p|..] == a && (p + b)[|p|..] == b;
  }

  predicate IsSpace(c: char) {
    c in " \t\n\r"
  }

  /** `text.trim() === ''`. */
  predicate Blank(text: string) {
    forall i :: 0 <= i < |text| ==> IsSpace(text[i])
  }

  /** Blank texts are those made of blanks alone: a text is blank when both its halves are, and a
      letter when it is one of these. */
  lemma BlankIff(a: string, b: string, c: char)
    ensures Blank("") && (Blank(a + b) <==> Blank(a) && Blank(b))
    ensures Blank([c]) <==> c == ' ' || c == '\t' || c == '\n' || c == '\r'
  {
    assert [c][0] == c;
    if Blank(a + b) {
      assert forall i :: 0 <= i < |a| ==> (a + b)[i] == a[i];
      assert forall i :: 0 <= i < |b| ==> (a + b)[|a| + i] == b[i];
    }
  }
}
