/** The unread counter of the interpreter panel. */
module UnreadCounter {
  import opened Sequences

  /** `length` is the number of messages of the last render. */
  datatype Panel = Panel(length: nat, previousLength: nat, newCount: int, atBottom: bool)

  /** One render: the scroll events batched into it (true for one that ends at the bottom, or a
      press of the jump button), the messages that came with it, and whether a counting update it
      queues reads the ref at once (`eager`) or only when the next render applies it. */
  datatype Commit = Commit(scrolls: seq<bool>, arrivals: nat, eager: bool)

  function Mounted(length: nat): Panel {
    Panel(length, length, 0, true)
  }

  function Scrolled(p: Panel, isBottom: bool): Panel {
    p.(atBottom := isBottom, newCount := if isBottom then 0 else p.newCount)
  }

  function ScrolledAll(p: Panel, scrolls: seq<bool>): Panel {
    if scrolls == [] then p else Scrolled(ScrolledAll(p, DropLast(scrolls)), Last(scrolls))
  }

  /** The effect on `[atBottom, messages.length]`. An update applied later finds the ref already set
      to the length it is compared with. */
  function Effect(p: Panel, eager: bool): Panel {
    var counted :=
      if p.length > p.previousLength && !p.atBottom
      then p.(newCount := p.newCount + p.length - if eager then p.previousLength else p.length)
      else p;
    counted.(previousLength := p.length)
  }

  function Step(p: Panel, c: Commit): Panel {
    var q := ScrolledAll(p, c.scrolls).(length := p.length + c.arrivals);
    if q.atBottom == p.atBottom && q.length == p.length then q else Effect(q, c.eager)
  }

  function Run(start: nat, cs: seq<Commit>): Panel {
    if cs == [] then Mounted(start) else Step(Run(start, DropLast(cs)), Last(cs))
  }

  // ---------------------------------------------------------------- what should be counted

  /** Whether the list is at the bottom after `cs`: as the last scroll said, at first yes. */
  function AtBottomAfter(cs: seq<Commit>): bool {
    if cs == [] then true
    else if Last(cs).scrolls != [] then Last(Last(cs).scrolls)
    else AtBottomAfter(DropLast(cs))
  }

  /** The last commit that reset the counter, or the first one. */
  function LastReset(cs: seq<Commit>): (r: nat)
    ensures r <= |cs|
    ensures forall i :: r < i < |cs| ==> true !in cs[i].scrolls
    ensures r == 0 || (r < |cs| && true in cs[r].scrolls)
  {
    if cs == [] then 0
    else if true in Last(cs).scrolls then |cs| - 1
    else LastReset(DropLast(cs))
  }

  /** Messages committed from commit `from` on while the list was not at the bottom; with `all` unset
      only those whose update was eager. */
  function ArrivedAway(cs: seq<Commit>, from: nat, all: bool): nat
    requires from <= |cs|
  {
    if |cs| == from then 0
    else ArrivedAway(DropLast(cs), from, all)
         + if !AtBottomAfter(cs) && (all || Last(cs).eager) then Last(cs).arrivals else 0
  }

  function Arrivals(cs: seq<Commit>): nat {
    if cs == [] then 0 else Arrivals(DropLast(cs)) + Last(cs).arrivals
  }

  lemma {:induction false} ScrollsSummed(p: Panel, scrolls: seq<bool>)
    ensures var q := ScrolledAll(p, scrolls);
      && q.length == p.length && q.previousLength == p.previousLength
      && q.newCount == (if true in scrolls then 0 else p.newCount)
      && q.atBottom == (if scrolls == [] then p.atBottom else Last(scrolls))
  {
    if scrolls == [] {
    } else {
      ScrollsSummed(p, DropLast(scrolls));
      assert scrolls == DropLast(scrolls) + [Last(scrolls)];
    }
  }

  /** The counter is the number of messages whose arrival was eagerly committed away from the bottom
      since the last reset; at the bottom it is zero. */
  lemma {:induction false} CountsEager(start: nat, cs: seq<Commit>)
    ensures var p := Run(start, cs);
      && p.length == p.previousLength == start + Arrivals(cs)
      && p.atBottom == AtBottomAfter(cs)
      && p.newCount == ArrivedAway(cs, LastReset(cs), false)
      && (p.atBottom ==> p.newCount == 0)
  {
    if cs == [] {
    } else {
      var front, c := DropLast(cs), Last(cs);
      CountsEager(start, front);
      ScrollsSummed(Run(start, front), c.scrolls);
      NothingCountedAtReset(front, |front|);
      assert c.scrolls != [] && Last(c.scrolls) ==> true in c.scrolls;
    }
  }

  lemma NothingCountedAtReset(cs: seq<Commit>, from: nat)
    requires from == |cs|
    ensures ArrivedAway(cs, from, false) == 0
  {
  }

  lemma {:induction false} ArrivedAwayBound(cs: seq<Commit>, from: nat)
    requires from <= |cs|
    ensures ArrivedAway(cs, from, false) <= ArrivedAway(cs, from, true) <= Arrivals(cs)
    decreases |cs|
  {
    if |cs| == from {
    } else {
      ArrivedAwayBound(DropLast(cs), from);
    }
  }

  /** No message arrived away from the bottom, since commit `from`, with an update read late. */
  ghost predicate NoneLate(cs: seq<Commit>, from: nat) {
    forall i :: from <= i < |cs| && !AtBottomAfter(cs[..i + 1]) && cs[i].arrivals > 0 ==> cs[i].eager
  }

  lemma {:induction false} AllCountedIff(cs: seq<Commit>, from: nat)
    requires from <= |cs|
    ensures ArrivedAway(cs, from, false) == ArrivedAway(cs, from, true) <==> NoneLate(cs, from)
    decreases |cs|
  {
    if |cs| == from {
    } else {
      var front := DropLast(cs);
      AllCountedIff(front, from);
      ArrivedAwayBound(front, from);
      assert cs[..|cs|] == cs;
      assert forall i :: from <= i < |front| ==> cs[..i + 1] == front[..i + 1] && cs[i] == front[i];
      if NoneLate(front, from) && (AtBottomAfter(cs) || Last(cs).arrivals == 0 || Last(cs).eager) {
        assert NoneLate(cs, from);
      }
      if NoneLate(cs, from) {
        assert cs[|cs| - 1] == Last(cs);
        assert NoneLate(front, from);
      }
    }
  }

  /** The counter is right - the messages that arrived away from the bottom since the last reset -
      exactly when none of their updates was read late; it never exceeds the list. */
  lemma CountIsUnreadIff(start: nat, cs: seq<Commit>)
    ensures Run(start, cs).newCount == ArrivedAway(cs, LastReset(cs), true) <==> NoneLate(cs, LastReset(cs))
    ensures 0 <= Run(start, cs).newCount <= Run(start, cs).length
  {
    CountsEager(start, cs);
    AllCountedIff(cs, LastReset(cs));
    ArrivedAwayBound(cs, LastReset(cs));
  }

  class ConversationPanel {
    var length: nat
    var previousLength: nat
    var newCount: int
    var atBottom: bool

    function Abs(): Panel
      reads this
    {
      Panel(length, previousLength, newCount, atBottom)
    }

    constructor (messages: nat)
      ensures Abs() == Mounted(messages)
    {
      length, previousLength, newCount, atBottom := messages, messages, 0, true;
    }

    method OnScroll(isBottom: bool)
      modifies this`atBottom, this`newCount
      ensures Abs() == Scrolled(old(Abs()), isBottom)
    {
      atBottom := isBottom;
      if isBottom {
        newCount := 0;
      }
    }

    method RunEffect(eager: bool)
      modifies this`newCount, this`previousLength
      ensures Abs() == Effect(old(Abs()), eager)
    {
      if length > previousLength && !atBottom {
        if eager {
          newCount := newCount + length - previousLength;
          previousLength := length;
        } else {
          previousLength := length;
          newCount := newCount + length - previousLength;
        }
      }
      previousLength := length;
    }

    method Render(c: Commit)
      modifies this
      ensures Abs() == Step(old(Abs()), c)
    {
      var lastAtBottom, lastLength := atBottom, length;
      for i := 0 to |c.scrolls|
        invariant Abs() == ScrolledAll(old(Abs()), c.scrolls[..i])
      {
        assert DropLast(c.scrolls[..i + 1]) == c.scrolls[..i];
        OnScroll(c.scrolls[i]);
      }
      assert c.scrolls[..|c.scrolls|] == c.scrolls;
      ScrollsSummed(old(Abs()), c.scrolls);
      length := length + c.arrivals;
      if atBottom != lastAtBottom || length != lastLength {
        RunEffect(c.eager);
      }
    }
  }
}
