/** The flag that closes a run of messages of one sender on the timeline. */
module SenderRuns {
  import opened Sequences
  import opened Messages
  import opened DateLabels

  /** `isLastFromSender`. */
  predicate LastFromSender(es: seq<Entry>, index: nat)
    requires index < |es| && es[index].Row?
  {
    || index + 1 == |es|
    || es[index + 1].DateLabel?
    || es[index + 1].msg.userId != es[index].msg.userId
  }

  /** From row `k` on, `j` is the first flagged row, with only rows of the same sender up to it. */
  ghost predicate ClosesRun(es: seq<Entry>, k: nat, j: nat) {
    && k <= j < |es| && es[k].Row?
    && (forall i :: k <= i <= j ==> es[i].Row? && es[i].msg.userId == es[k].msg.userId)
    && LastFromSender(es, j)
    && (forall i :: k <= i < j ==> !LastFromSender(es, i))
  }

  lemma {:induction false} RunCloses(es: seq<Entry>, k: nat) returns (j: nat)
    requires k < |es| && es[k].Row?
    ensures ClosesRun(es, k, j)
    ensures forall i: nat :: ClosesRun(es, k, i) ==> i == j
    decreases |es| - k
  {
    if LastFromSender(es, k) {
      j := k;
    } else {
      j := RunCloses(es, k + 1);
    }
  }

  /** Every message has exactly one closing row; on a labelled list the run up to it is of one day. */
  lemma RunClosesOnItsDay(cal: Calendar, today: int, es: seq<Entry>, k: nat) returns (j: nat)
    requires WellLabelled(cal, today, None, es) && k < |es| && es[k].Row?
    ensures ClosesRun(es, k, j)
    ensures forall i: nat :: ClosesRun(es, k, i) ==> i == j
    ensures forall i :: k <= i <= j ==> cal.Day(es[i].msg) == cal.Day(es[k].msg)
  {
    j := RunCloses(es, k);
    SameDayAlong(cal, today, es, k, j);
  }

  lemma {:induction false} SameDayAlong(cal: Calendar, today: int, es: seq<Entry>, k: nat, j: nat)
    requires WellLabelled(cal, today, None, es) && k <= j < |es|
    requires forall i :: k <= i <= j ==> es[i].Row?
    ensures forall i :: k <= i <= j ==> cal.Day(es[i].msg) == cal.Day(es[k].msg)
  {
    if k == j {
    } else {
      SameDayAlong(cal, today, es, k, j - 1);
      assert Fits(cal, today, None, es, j);
    }
  }

  // ---------------------------------------------------------------- blocks

  predicate SameBlock(cal: Calendar, m: Message, n: Message) {
    m.userId == n.userId && cal.Day(m) == cal.Day(n)
  }

  /** Message `i` is the last one, or the next has another sender or day. */
  predicate EndsBlock(cal: Calendar, ms: seq<Message>, i: nat)
    requires i < |ms|
  {
    i + 1 == |ms| || !SameBlock(cal, ms[i], ms[i + 1])
  }

  lemma FirstFlag(cal: Calendar, today: int, ms: seq<Message>)
    requires ms != []
    ensures var es := [Row(ms[0])] + Labelled(cal, today, Some(cal.Day(ms[0])), ms[1..]);
      LastFromSender(es, 0) <==> EndsBlock(cal, ms, 0)
  {
  }

  /** Behind an erased head, a row's flag and place are those it has in the rest. */
  lemma FlagInRest(head: seq<Entry>, rest: seq<Entry>, j: nat)
    requires j < |rest| && rest[j].Row?
    ensures LastFromSender(head + rest, |head| + j) <==> LastFromSender(rest, j)
    ensures Erase((head + rest)[..|head| + j]) == Erase(head) + Erase(rest[..j])
  {
    assert (head + rest)[..|head| + j] == head + rest[..j];
    EraseAppend(head, rest[..j]);
  }

  lemma LabelledHead(cal: Calendar, today: int, prev: Option<int>, ms: seq<Message>)
    requires ms != []
    ensures Labelled(cal, today, prev, ms)
         == Tail(cal, today, prev, ms[0]) + Labelled(cal, today, Some(cal.Day(ms[0])), ms[1..])
    ensures Erase(Tail(cal, today, prev, ms[0])) == [ms[0]]
  {
    EraseLabelled(cal, today, prev, [ms[0]]);
    assert Labelled(cal, today, prev, [ms[0]]) == Tail(cal, today, prev, ms[0]);
  }

  lemma FlagOfFirst(cal: Calendar, today: int, prev: Option<int>, ms: seq<Message>)
    requires ms != []
    ensures var es := Labelled(cal, today, prev, ms); var k := |Tail(cal, today, prev, ms[0])| - 1;
      && k < |es| && es[k] == Row(ms[0]) && Erase(es[..k]) == []
      && (LastFromSender(es, k) <==> EndsBlock(cal, ms, 0))
      && forall j :: 0 <= j < k ==> es[j].DateLabel?
  {
    var es := Labelled(cal, today, prev, ms);
    var k := |Tail(cal, today, prev, ms[0])| - 1;
    LabelledHead(cal, today, prev, ms);
    FirstFlag(cal, today, ms);
    EraseHead(es, k);
    assert es[k..] == [Row(ms[0])] + Labelled(cal, today, Some(cal.Day(ms[0])), ms[1..]);
    assert LastFromSender(es, k) <==> LastFromSender(es[k..], 0);
  }

  /** The flag is computed from the labelled list, yet it is a function of the messages alone: it
      marks the ends of blocks of one sender and day. */
  lemma {:induction false} FlagIff(cal: Calendar, today: int, prev: Option<int>, ms: seq<Message>, k: nat)
    requires k < |Labelled(cal, today, prev, ms)| && Labelled(cal, today, prev, ms)[k].Row?
    ensures var es := Labelled(cal, today, prev, ms); var i := |Erase(es[..k])|;
      i < |ms| && ms[i] == es[k].msg && (LastFromSender(es, k) <==> EndsBlock(cal, ms, i))
    decreases |ms|
  {
    var h := |Tail(cal, today, prev, ms[0])|;
    FlagOfFirst(cal, today, prev, ms);
    if k < h {
    } else {
      LabelledHead(cal, today, prev, ms);
      FlagInRest(Tail(cal, today, prev, ms[0]), Labelled(cal, today, Some(cal.Day(ms[0])), ms[1..]), k - h);
      FlagIff(cal, today, Some(cal.Day(ms[0])), ms[1..], k - h);
    }
  }

  lemma EraseHead(es: seq<Entry>, h: nat)
    requires h <= 1 && h <= |es| && (h == 1 ==> es[0].DateLabel?)
    ensures Erase(es[..h]) == []
  {
  }

  function FlagCount(es: seq<Entry>): nat {
    if es == [] then 0
    else (if es[0].Row? && LastFromSender(es, 0) then 1 else 0) + FlagCount(es[1..])
  }

  function EndCount(cal: Calendar, ms: seq<Message>): nat {
    if ms == [] then 0 else (if EndsBlock(cal, ms, 0) then 1 else 0) + EndCount(cal, ms[1..])
  }

  lemma {:induction false} FlagsAreEnds(cal: Calendar, today: int, prev: Option<int>, ms: seq<Message>)
    ensures FlagCount(Labelled(cal, today, prev, ms)) == EndCount(cal, ms)
    decreases |ms|
  {
    if ms == [] {
    } else {
      var es, day := Labelled(cal, today, prev, ms), cal.Day(ms[0]);
      var rest := Labelled(cal, today, Some(day), ms[1..]);
      var tail := [Row(ms[0])] + rest;
      FlagsAreEnds(cal, today, Some(day), ms[1..]);
      FirstFlag(cal, today, ms);
      assert tail[1..] == rest;
      if prev == Some(day) {
        assert es == tail;
      } else {
        assert es[1..] == tail;
      }
    }
  }

  function Flatten(bs: seq<seq<Message>>): seq<Message> {
    if bs == [] then [] else bs[0] + Flatten(bs[1..])
  }

  ghost predicate Uniform(cal: Calendar, b: seq<Message>) {
    b != [] && forall i :: 0 <= i < |b| ==> SameBlock(cal, b[0], b[i])
  }

  /** A cut into non-empty blocks of one sender and day, none of which could be joined to the next. */
  ghost predicate MaximalBlocks(cal: Calendar, bs: seq<seq<Message>>) {
    && (forall i :: 0 <= i < |bs| ==> Uniform(cal, bs[i]))
    && (forall i :: 0 <= i < |bs| - 1 ==> !SameBlock(cal, bs[i][0], bs[i + 1][0]))
  }

  lemma {:induction false} EndsInBlock(cal: Calendar, b: seq<Message>, rest: seq<Message>)
    requires Uniform(cal, b) && (rest == [] || !SameBlock(cal, b[0], rest[0]))
    ensures EndCount(cal, b + rest) == 1 + EndCount(cal, rest)
    decreases |b|
  {
    var ms := b + rest;
    assert ms[1..] == b[1..] + rest;
    if |b| == 1 {
      assert ms[1..] == rest;
    } else {
      assert SameBlock(cal, b[0], b[1]);
      EndsInBlock(cal, b[1..], rest);
    }
  }

  lemma {:induction false} EndsCountBlocks(cal: Calendar, bs: seq<seq<Message>>)
    requires MaximalBlocks(cal, bs)
    ensures EndCount(cal, Flatten(bs)) == |bs|
  {
    if bs == [] {
    } else {
      var more := bs[1..];
      assert forall i :: 0 <= i < |more| ==> more[i] == bs[i + 1];
      EndsCountBlocks(cal, more);
      if more != [] {
        assert Uniform(cal, more[0]) && Flatten(more)[0] == more[0][0];
        assert !SameBlock(cal, bs[0][0], bs[1][0]);
      }
      EndsInBlock(cal, bs[0], Flatten(more));
    }
  }

  /** The flags are as many as the maximal blocks the messages are cut into. */
  lemma FlagsCountBlocks(cal: Calendar, today: int, bs: seq<seq<Message>>)
    requires MaximalBlocks(cal, bs)
    ensures FlagCount(Labelled(cal, today, None, Flatten(bs))) == |bs|
  {
    FlagsAreEnds(cal, today, None, Flatten(bs));
    EndsCountBlocks(cal, bs);
  }

  /** A block of its own, and a block joined to the first of the following ones. */
  lemma NewBlock(cal: Calendar, m: Message, more: seq<seq<Message>>)
    requires MaximalBlocks(cal, more) && (more != [] ==> !SameBlock(cal, m, more[0][0]))
    ensures MaximalBlocks(cal, [[m]] + more) && Flatten([[m]] + more) == [m] + Flatten(more)
  {
    var bs := [[m]] + more;
    assert bs[1..] == more;
    forall i | 0 <= i < |bs| - 1 ensures !SameBlock(cal, bs[i][0], bs[i + 1][0]) {
      assert i > 0 ==> !SameBlock(cal, more[i - 1][0], more[i][0]);
    }
  }

  lemma JoinBlock(cal: Calendar, m: Message, more: seq<seq<Message>>)
    requires MaximalBlocks(cal, more) && more != [] && SameBlock(cal, m, more[0][0])
    ensures var bs := [[m] + more[0]] + more[1..]; MaximalBlocks(cal, bs) && Flatten(bs) == [m] + Flatten(more)
  {
    var bs := [[m] + more[0]] + more[1..];
    assert bs[1..] == more[1..];
    assert Uniform(cal, more[0]);
    assert [m] + more[0] + Flatten(more[1..]) == [m] + (more[0] + Flatten(more[1..]));
    forall i | 0 <= i < |bs| - 1 ensures !SameBlock(cal, bs[i][0], bs[i + 1][0]) {
      assert !SameBlock(cal, more[i][0], more[i + 1][0]);
    }
  }

  /** Every list can be cut so: behind every block end. */
  function Blocks(cal: Calendar, ms: seq<Message>): (bs: seq<seq<Message>>)
    ensures Flatten(bs) == ms
    ensures MaximalBlocks(cal, bs)
  {
    if ms == [] then []
    else
      var more := Blocks(cal, ms[1..]);
      assert ms == [ms[0]] + ms[1..];
      assert more != [] ==> Uniform(cal, more[0]) && Flatten(more)[0] == more[0][0];
      if EndsBlock(cal, ms, 0) then
        NewBlock(cal, ms[0], more);
        [[ms[0]]] + more
      else
        JoinBlock(cal, ms[0], more);
        [[ms[0]] + more[0]] + more[1..]
  }
}
