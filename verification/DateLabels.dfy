/** Date labels: `injectDateLabels` walks a message list and puts a label in front of every message
    whose local day differs from that of its predecessor. */
module DateLabels {
  import opened Sequences
  import opened Messages

  /** The calendar the client runs under. `dayOf` numbers the local day of an instant, `stamp` is the
      `YYYYMMDD` text of a day and `text` its `DD/MM/YYYY` text. */
  datatype Calendar = Calendar(dayOf: int -> int, stamp: int -> string, text: int -> string) {
    /** Days follow instants, and the key text tells days apart. */
    ghost predicate Valid() {
      && (forall t, u :: t <= u ==> dayOf(t) <= dayOf(u))
      && (forall d, e :: stamp(d) == stamp(e) ==> d == e)
    }

    function Day(m: Message): int {
      dayOf(m.createdAt)
    }
  }

  /** An element of the list handed to the list view. */
  datatype Entry = DateLabel(caption: string, id: string) | Row(msg: Message)

  function BaseId(cal: Calendar, day: int): string {
    "date-" + cal.stamp(day)
  }

  function LabelText(cal: Calendar, today: int, day: int): string {
    if day == today then "today" else if day == today - 1 then "yesterday" else cal.text(day)
  }

  function LabelFor(cal: Calendar, today: int, day: int): Entry {
    DateLabel(LabelText(cal, today, day), BaseId(cal, day))
  }

  /** The labelled form of `ms` when the day of the preceding message is `prev`. */
  function Labelled(cal: Calendar, today: int, prev: Option<int>, ms: seq<Message>): seq<Entry>
    decreases |ms|
  {
    if ms == [] then []
    else
      var day := cal.Day(ms[0]);
      (if prev == Some(day) then [] else [LabelFor(cal, today, day)]) + [Row(ms[0])]
      + Labelled(cal, today, Some(day), ms[1..])
  }

  /** The day the loop remembers after `ms`. */
  function LastDay(cal: Calendar, prev: Option<int>, ms: seq<Message>): Option<int> {
    if ms == [] then prev else Some(cal.Day(Last(ms)))
  }

  /** What one message adds behind a message of day `prev`. */
  function Tail(cal: Calendar, today: int, prev: Option<int>, m: Message): seq<Entry> {
    (if prev == Some(cal.Day(m)) then [] else [LabelFor(cal, today, cal.Day(m))]) + [Row(m)]
  }

  lemma LabelledCons(cal: Calendar, today: int, prev: Option<int>, m: Message, ms: seq<Message>)
    ensures Labelled(cal, today, prev, [m] + ms)
         == Tail(cal, today, prev, m) + Labelled(cal, today, Some(cal.Day(m)), ms)
  {
    assert ([m] + ms)[1..] == ms;
  }

  lemma {:induction false} LabelledAppend(cal: Calendar, today: int, prev: Option<int>, ms: seq<Message>,
    ns: seq<Message>)
    ensures Labelled(cal, today, prev, ms + ns)
         == Labelled(cal, today, prev, ms) + Labelled(cal, today, LastDay(cal, prev, ms), ns)
    decreases |ms|
  {
    if ms == [] {
      assert ms + ns == ns;
    } else {
      var m, rest := ms[0], ms[1..];
      var day := Some(cal.Day(m));
      LabelledAppend(cal, today, day, rest, ns);
      LabelledCons(cal, today, prev, m, rest);
      LabelledCons(cal, today, prev, m, rest + ns);
      assert [m] + rest == ms && [m] + (rest + ns) == ms + ns;
      assert LastDay(cal, prev, ms) == LastDay(cal, day, rest);
      AppendAssociative(Tail(cal, today, prev, m), Labelled(cal, today, day, rest),
        Labelled(cal, today, LastDay(cal, prev, ms), ns));
    }
  }

  lemma AppendAssociative<T>(a: seq<T>, b: seq<T>, c: seq<T>)
    ensures a + (b + c) == (a + b) + c
  {
  }

  lemma LabelledSnoc(cal: Calendar, today: int, prev: Option<int>, ms: seq<Message>, m: Message)
    ensures Labelled(cal, today, prev, ms + [m])
         == Labelled(cal, today, prev, ms) + Tail(cal, today, LastDay(cal, prev, ms), m)
  {
    LabelledAppend(cal, today, prev, ms, [m]);
  }

  /** The decimal text of a counter, as a template string prints it. */
  function Decimal(n: nat): (s: string)
    ensures s != []
  {
    var digit := ["0", "1", "2", "3", "4", "5", "6", "7", "8", "9"][n % 10];
    if n < 10 then digit else Decimal(n / 10) + digit
  }

  /** `if (!dateKeyCount[baseId]) dateKeyCount[baseId] = 0; else dateKeyCount[baseId]++`. */
  function CountLabel(count: map<string, nat>, baseId: string): map<string, nat> {
    if baseId !in count || count[baseId] == 0 then count[baseId := 0] else count[baseId := count[baseId] + 1]
  }

  function UniqueId(count: map<string, nat>, baseId: string): string
    requires baseId in count
  {
    if count[baseId] == 0 then baseId else baseId + "-" + Decimal(count[baseId])
  }

  /** `injectDateLabels`. The counter that should tell repeated labels of a day apart is reset
      whenever it is missing or zero, so it is zero for ever and the suffixed id is never built. */
  method InjectDateLabels(cal: Calendar, today: int, messages: seq<Message>) returns (result: seq<Entry>)
    ensures result == Labelled(cal, today, None, messages)
    ensures forall k: nat :: k < |result| && result[k].DateLabel? ==> Captioned(cal, today, result, k)
  {
    LabelsCaptioned(cal, today, messages);
    result := [];
    if |messages| == 0 {
      return;
    }
    var lastDate: Option<int> := None;
    var dateKeyCount: map<string, nat> := map[];
    for i := 0 to |messages|
      invariant result == Labelled(cal, today, None, messages[..i])
      invariant lastDate == LastDay(cal, None, messages[..i])
      invariant forall key :: key in dateKeyCount ==> dateKeyCount[key] == 0
    {
      var msg := messages[i];
      var msgDate := cal.Day(msg);
      assert messages[..i + 1] == messages[..i] + [msg];
      LabelledSnoc(cal, today, None, messages[..i], msg);
      if lastDate == None || lastDate.value != msgDate {
        var caption;
        if msgDate == today {
          caption := "today";
        } else if msgDate == today - 1 {
          caption := "yesterday";
        } else {
          caption := cal.text(msgDate);
        }
        var baseId := "date-" + cal.stamp(msgDate);
        dateKeyCount := CountLabel(dateKeyCount, baseId);
        var uniqueId := UniqueId(dateKeyCount, baseId);
        result := result + [DateLabel(caption, uniqueId)];
        lastDate := Some(msgDate);
      }
      result := result + [Row(msg)];
    }
    assert messages[..|messages|] == messages;
  }

  // ---------------------------------------------------------------- what a labelled list is

  /** The messages of a list of entries. */
  function Erase(es: seq<Entry>): seq<Message> {
    if es == [] then []
    else if es[0].Row? then [es[0].msg] + Erase(es[1..])
    else Erase(es[1..])
  }

  /** The day that precedes position `k`: that of the row there, or `prev` at the start. A label
      has no day of its own. */
  function DayBefore(cal: Calendar, prev: Option<int>, es: seq<Entry>, k: nat): Option<int>
    requires k <= |es|
  {
    if k == 0 then prev else if es[k - 1].Row? then Some(cal.Day(es[k - 1].msg)) else None
  }

  /** A label announces the next row, differs in day from the row before it and is never next to
      another label; a row stands behind a label or behind a row of its own day. */
  ghost predicate Fits(cal: Calendar, today: int, prev: Option<int>, es: seq<Entry>, k: nat)
    requires k < |es|
  {
    match es[k]
    case DateLabel(_, _) =>
      && k + 1 < |es| && es[k + 1].Row?
      && es[k] == LabelFor(cal, today, cal.Day(es[k + 1].msg))
      && (k > 0 ==> es[k - 1].Row?)
      && DayBefore(cal, prev, es, k) != Some(cal.Day(es[k + 1].msg))
    case Row(m) =>
      (k > 0 && es[k - 1].DateLabel?) || DayBefore(cal, prev, es, k) == Some(cal.Day(m))
  }

  ghost predicate WellLabelled(cal: Calendar, today: int, prev: Option<int>, es: seq<Entry>) {
    forall k: nat :: k < |es| ==> Fits(cal, today, prev, es, k)
  }

  lemma {:induction false} EraseAppend(es: seq<Entry>, fs: seq<Entry>)
    ensures Erase(es + fs) == Erase(es) + Erase(fs)
  {
    if es == [] {
      assert es + fs == fs;
    } else {
      assert (es + fs)[1..] == es[1..] + fs && (es + fs)[0] == es[0];
      EraseAppend(es[1..], fs);
      if es[0].Row? {
        assert [es[0].msg] + (Erase(es[1..]) + Erase(fs)) == ([es[0].msg] + Erase(es[1..])) + Erase(fs);
      }
    }
  }

  lemma {:induction false} EraseLabelled(cal: Calendar, today: int, prev: Option<int>, ms: seq<Message>)
    ensures Erase(Labelled(cal, today, prev, ms)) == ms
    decreases |ms|
  {
    if ms == [] {
    } else {
      var day := cal.Day(ms[0]);
      var head := if prev == Some(day) then [] else [LabelFor(cal, today, day)];
      EraseLabelled(cal, today, Some(day), ms[1..]);
      var rest := Labelled(cal, today, Some(day), ms[1..]);
      EraseAppend(head + [Row(ms[0])], rest);
      EraseAppend(head, [Row(ms[0])]);
      assert Erase([Row(ms[0])]) == [ms[0]];
      assert Erase(head) == [];
    }
  }

  /** Putting `head` (an optional label and a row) in front of a well-labelled list. */
  lemma WellLabelledCons(cal: Calendar, today: int, prev: Option<int>, m: Message, rest: seq<Entry>)
    requires WellLabelled(cal, today, Some(cal.Day(m)), rest)
    ensures WellLabelled(cal, today, prev, Tail(cal, today, prev, m) + rest)
  {
    var head := Tail(cal, today, prev, m);
    var es := head + rest;
    forall k: nat | k < |es| ensures Fits(cal, today, prev, es, k) {
      if k >= |head| {
        var j := k - |head|;
        assert Fits(cal, today, Some(cal.Day(m)), rest, j);
        assert es[k] == rest[j];
        assert j + 1 < |rest| ==> es[k + 1] == rest[j + 1];
        assert j > 0 ==> es[k - 1] == rest[j - 1];
      }
    }
  }

  lemma {:induction false} LabelledFits(cal: Calendar, today: int, prev: Option<int>, ms: seq<Message>)
    ensures WellLabelled(cal, today, prev, Labelled(cal, today, prev, ms))
    decreases |ms|
  {
    if ms == [] {
    } else {
      LabelledFits(cal, today, Some(cal.Day(ms[0])), ms[1..]);
      WellLabelledCons(cal, today, prev, ms[0], Labelled(cal, today, Some(cal.Day(ms[0])), ms[1..]));
    }
  }

  /** Cutting the first row, with its label if it has one, off a well-labelled list. */
  lemma WellLabelledTail(cal: Calendar, today: int, prev: Option<int>, es: seq<Entry>)
    returns (m: Message, rest: seq<Entry>)
    requires es != [] && WellLabelled(cal, today, prev, es)
    ensures es == Tail(cal, today, prev, m) + rest
    ensures WellLabelled(cal, today, Some(cal.Day(m)), rest)
  {
    assert Fits(cal, today, prev, es, 0);
    var n := if es[0].DateLabel? then 1 else 0;
    m := es[n].msg;
    rest := es[n + 1..];
    assert es == es[..n] + [es[n]] + rest;
    forall k: nat | k < |rest| ensures Fits(cal, today, Some(cal.Day(m)), rest, k) {
      assert Fits(cal, today, prev, es, k + n + 1);
      assert rest[k] == es[k + n + 1];
      assert k + 1 < |rest| ==> rest[k + 1] == es[k + n + 2];
      assert k > 0 ==> rest[k - 1] == es[k + n];
    }
  }

  lemma {:induction false} WellLabelledUnique(cal: Calendar, today: int, prev: Option<int>, es: seq<Entry>)
    requires WellLabelled(cal, today, prev, es)
    ensures es == Labelled(cal, today, prev, Erase(es))
    decreases |es|
  {
    if es == [] {
    } else {
      var m, rest := WellLabelledTail(cal, today, prev, es);
      WellLabelledUnique(cal, today, Some(cal.Day(m)), rest);
      EraseLabelled(cal, today, prev, [m]);
      assert Labelled(cal, today, prev, [m]) == Tail(cal, today, prev, m);
      EraseAppend(Tail(cal, today, prev, m), rest);
      assert ([m] + Erase(rest))[1..] == Erase(rest);
    }
  }

  /** The labelled list is the one and only list that gives the messages back when its labels are
      erased and in which labels stand exactly where the day changes. */
  lemma LabelledIff(cal: Calendar, today: int, ms: seq<Message>, es: seq<Entry>)
    ensures es == Labelled(cal, today, None, ms)
       <==> Erase(es) == ms && WellLabelled(cal, today, None, es)
  {
    EraseLabelled(cal, today, None, ms);
    LabelledFits(cal, today, None, ms);
    if WellLabelled(cal, today, None, es) {
      WellLabelledUnique(cal, today, None, es);
    }
  }

  // ---------------------------------------------------------------- captions

  /** A label stands before a row, tells that row's day, and reads "today" for today, "yesterday" for
      the day before and the day's text otherwise. */
  ghost predicate Captioned(cal: Calendar, today: int, es: seq<Entry>, k: nat)
    requires k < |es| && es[k].DateLabel?
  {
    && k + 1 < |es| && es[k + 1].Row?
    && var day := cal.Day(es[k + 1].msg);
       && (day == today ==> es[k].caption == "today")
       && (day == today - 1 ==> es[k].caption == "yesterday")
       && (day != today && day != today - 1 ==> es[k].caption == cal.text(day))
       && es[k].id == "date-" + cal.stamp(day)
  }

  lemma LabelsCaptioned(cal: Calendar, today: int, ms: seq<Message>)
    ensures var es := Labelled(cal, today, None, ms);
      forall k: nat :: k < |es| && es[k].DateLabel? ==> Captioned(cal, today, es, k)
  {
    var es := Labelled(cal, today, None, ms);
    LabelledFits(cal, today, None, ms);
    forall k: nat | k < |es| && es[k].DateLabel? ensures Captioned(cal, today, es, k) {
      assert Fits(cal, today, None, es, k);
    }
  }

  /** What midnight makes of an entry of day `day`. */
  function AfterMidnight(cal: Calendar, today: int, day: int, e: Entry): Entry {
    if e.Row? then e
    else if day == today + 1 then e.(caption := "today")
    else if day == today then e.(caption := "yesterday")
    else if day == today - 1 then e.(caption := cal.text(day))
    else e
  }

  /** The day of the row at `k`, or behind the label at `k`. */
  function DayAt(cal: Calendar, es: seq<Entry>, k: nat): int
    requires k < |es|
  {
    if es[k].Row? then cal.Day(es[k].msg)
    else if k + 1 < |es| && es[k + 1].Row? then cal.Day(es[k + 1].msg)
    else 0
  }

  ghost predicate TurnsInto(cal: Calendar, today: int, before: seq<Entry>, after: seq<Entry>) {
    && |after| == |before|
    && forall k :: 0 <= k < |before| ==> after[k] == AfterMidnight(cal, today, DayAt(cal, before, k), before[k])
  }

  lemma MidnightHead(cal: Calendar, today: int, prev: Option<int>, m: Message)
    ensures TurnsInto(cal, today, Tail(cal, today, prev, m), Tail(cal, today + 1, prev, m))
  {
  }

  lemma MidnightJoin(cal: Calendar, today: int, a: seq<Entry>, b: seq<Entry>, c: seq<Entry>, d: seq<Entry>)
    requires TurnsInto(cal, today, a, b) && TurnsInto(cal, today, c, d) && a != [] && Last(a).Row?
    ensures TurnsInto(cal, today, a + c, b + d)
  {
    forall k | 0 <= k < |a + c| ensures (b + d)[k] == AfterMidnight(cal, today, DayAt(cal, a + c, k), (a + c)[k]) {
      if k < |a| {
        assert DayAt(cal, a + c, k) == DayAt(cal, a, k);
      } else {
        assert DayAt(cal, a + c, k) == DayAt(cal, c, k - |a|);
      }
    }
  }

  /** A day later the same messages have the same rows and labels, but "today" reads "yesterday",
      "yesterday" the text of its day, and what was labelled as tomorrow reads "today". */
  lemma {:induction false} Midnight(cal: Calendar, today: int, prev: Option<int>, ms: seq<Message>)
    ensures TurnsInto(cal, today, Labelled(cal, today, prev, ms), Labelled(cal, today + 1, prev, ms))
    decreases |ms|
  {
    if ms == [] {
    } else {
      var day := Some(cal.Day(ms[0]));
      var a, b := Tail(cal, today, prev, ms[0]), Tail(cal, today + 1, prev, ms[0]);
      var c, d := Labelled(cal, today, day, ms[1..]), Labelled(cal, today + 1, day, ms[1..]);
      MidnightHead(cal, today, prev, ms[0]);
      Midnight(cal, today, day, ms[1..]);
      MidnightJoin(cal, today, a, b, c, d);
      assert Labelled(cal, today, prev, ms) == a + c && Labelled(cal, today + 1, prev, ms) == b + d;
    }
  }

  /** Every message stands under a label of its own day, with only messages of that day between. */
  lemma {:induction false} UnderOwnLabel(cal: Calendar, today: int, es: seq<Entry>, k: nat) returns (j: nat)
    requires WellLabelled(cal, today, None, es) && k < |es| && es[k].Row?
    ensures j < k && es[j] == LabelFor(cal, today, cal.Day(es[k].msg))
    ensures forall i :: j < i <= k ==> es[i].Row? && cal.Day(es[i].msg) == cal.Day(es[k].msg)
  {
    assert Fits(cal, today, None, es, k);
    if es[k - 1].DateLabel? {
      assert Fits(cal, today, None, es, k - 1);
      j := k - 1;
    } else {
      j := UnderOwnLabel(cal, today, es, k - 1);
    }
  }

  function LabelCount(es: seq<Entry>): nat {
    if es == [] then 0 else (if es[0].DateLabel? then 1 else 0) + LabelCount(es[1..])
  }

  function DayChanges(cal: Calendar, prev: Option<int>, ms: seq<Message>): nat
    decreases |ms|
  {
    if ms == [] then 0
    else (if prev == Some(cal.Day(ms[0])) then 0 else 1) + DayChanges(cal, Some(cal.Day(ms[0])), ms[1..])
  }

  /** One label per day change, the first day included. */
  lemma {:induction false} LabelsCountDays(cal: Calendar, today: int, prev: Option<int>, ms: seq<Message>)
    ensures LabelCount(Labelled(cal, today, prev, ms)) == DayChanges(cal, prev, ms)
    decreases |ms|
  {
    if ms == [] {
    } else {
      var day := cal.Day(ms[0]);
      LabelsCountDays(cal, today, Some(day), ms[1..]);
      var es := Labelled(cal, today, prev, ms);
      var rest := Labelled(cal, today, Some(day), ms[1..]);
      if prev == Some(day) {
        assert es[1..] == rest;
      } else {
        assert es[1..][1..] == rest;
      }
    }
  }

  // ---------------------------------------------------------------- list keys

  /** `keyExtractor`. */
  function Key(e: Entry): string {
    match e
    case DateLabel(_, id) => id
    case Row(m) => "message-" + m.id
  }

  ghost predicate KeysDistinct(es: seq<Entry>) {
    forall i, j :: 0 <= i < j < |es| ==> Key(es[i]) != Key(es[j])
  }

  ghost function Keys(es: seq<Entry>): set<string> {
    set e | e in es :: Key(e)
  }

  /** No day is left and entered again. */
  ghost predicate DaysTogether(cal: Calendar, ms: seq<Message>) {
    forall i, j, k :: 0 <= i < j < k < |ms| && cal.Day(ms[i]) == cal.Day(ms[k]) ==> cal.Day(ms[j]) == cal.Day(ms[i])
  }

  ghost function Days(cal: Calendar, ms: seq<Message>): set<int> {
    set m | m in ms :: cal.Day(m)
  }

  lemma KeysSnoc(es: seq<Entry>, e: Entry)
    ensures KeysDistinct(es + [e]) <==> KeysDistinct(es) && Key(e) !in Keys(es)
  {
    var fs := es + [e];
    assert forall i :: 0 <= i < |es| ==> fs[i] == es[i] && es[i] in es;
    if KeysDistinct(fs) {
      forall x | x in es ensures Key(x) != Key(e) {
        var i :| 0 <= i < |es| && es[i] == x;
        assert Key(fs[i]) != Key(fs[|es|]);
      }
    }
  }

  lemma RowKeysDiffer(a: string, b: string)
    ensures "message-" + a == "message-" + b <==> a == b
  {
    assert ("message-" + a)[8..] == a && ("message-" + b)[8..] == b;
  }

  lemma LabelKeysDiffer(cal: Calendar, d: int, e: int)
    requires cal.Valid()
    ensures BaseId(cal, d) == BaseId(cal, e) <==> d == e
  {
    assert BaseId(cal, d)[5..] == cal.stamp(d) && BaseId(cal, e)[5..] == cal.stamp(e);
  }

  lemma LabelIsNoRowKey(cal: Calendar, d: int, a: string)
    ensures BaseId(cal, d) != "message-" + a
  {
    assert BaseId(cal, d)[0] == 'd' && ("message-" + a)[0] == 'm';
  }

  lemma TailKeys(cal: Calendar, today: int, prev: Option<int>, m: Message)
    ensures Keys(Tail(cal, today, prev, m))
         == {"message-" + m.id} + if prev == Some(cal.Day(m)) then {} else {BaseId(cal, cal.Day(m))}
  {
    var tail := Tail(cal, today, prev, m);
    assert Row(m) in tail && Key(Row(m)) == "message-" + m.id;
    if prev == Some(cal.Day(m)) {
      assert tail == [Row(m)];
    } else {
      assert tail == [LabelFor(cal, today, cal.Day(m)), Row(m)];
      assert tail[0] in tail;
    }
  }

  ghost function LabelKeys(cal: Calendar, days: set<int>): set<string> {
    set d | d in days :: BaseId(cal, d)
  }

  ghost function RowKeys(ids: set<string>): set<string> {
    set a | a in ids :: "message-" + a
  }

  lemma KeySetsSnoc(cal: Calendar, front: seq<Message>, m: Message)
    ensures LabelKeys(cal, Days(cal, front + [m])) == LabelKeys(cal, Days(cal, front)) + {BaseId(cal, cal.Day(m))}
    ensures RowKeys(Ids(front + [m])) == RowKeys(Ids(front)) + {"message-" + m.id}
  {
    assert Days(cal, front + [m]) == Days(cal, front) + {cal.Day(m)};
    assert Ids(front + [m]) == Ids(front) + {m.id};
  }

  /** The keys of a labelled list: one per day and one per message id. */
  lemma {:induction false} LabelledKeys(cal: Calendar, today: int, ms: seq<Message>)
    ensures Keys(Labelled(cal, today, None, ms)) == LabelKeys(cal, Days(cal, ms)) + RowKeys(Ids(ms))
  {
    if ms == [] {
    } else {
      var front, m := DropLast(ms), Last(ms);
      assert ms == front + [m];
      LabelledKeys(cal, today, front);
      LabelledSnoc(cal, today, None, front, m);
      TailKeys(cal, today, LastDay(cal, None, front), m);
      var es := Labelled(cal, today, None, front);
      var tail := Tail(cal, today, LastDay(cal, None, front), m);
      assert Keys(es + tail) == Keys(es) + Keys(tail);
      KeySetsSnoc(cal, front, m);
      if LastDay(cal, None, front) == Some(cal.Day(m)) {
        assert Last(front) in front;
        assert cal.Day(m) in Days(cal, front);
      }
    }
  }

  lemma DaysTogetherExtend(cal: Calendar, s: seq<Message>, m: Message)
    requires DaysTogether(cal, s) && (s == [] || cal.Day(Last(s)) == cal.Day(m) || cal.Day(m) !in Days(cal, s))
    ensures DaysTogether(cal, s + [m])
  {
    var t := s + [m];
    forall i, j, k | 0 <= i < j < k < |t| && cal.Day(t[i]) == cal.Day(t[k]) ensures cal.Day(t[j]) == cal.Day(t[i]) {
      assert t[i] == s[i] && t[j] == s[j] && cal.Day(s[i]) in Days(cal, s);
      if k < |s| {
        assert t[k] == s[k];
      } else if j < |s| - 1 {
        assert cal.Day(s[i]) == cal.Day(s[|s| - 1]);
      }
    }
  }

  lemma DaysTogetherShrink(cal: Calendar, s: seq<Message>, m: Message)
    requires DaysTogether(cal, s + [m])
    ensures DaysTogether(cal, s) && (s == [] || cal.Day(Last(s)) == cal.Day(m) || cal.Day(m) !in Days(cal, s))
  {
    var t := s + [m];
    assert forall i :: 0 <= i < |s| ==> s[i] == t[i];
    if cal.Day(m) in Days(cal, s) {
      var x :| x in s && cal.Day(x) == cal.Day(m);
      var i :| 0 <= i < |s| && s[i] == x;
      if i < |s| - 1 {
        assert cal.Day(t[i]) == cal.Day(t[|s|]);
        assert cal.Day(t[|s| - 1]) == cal.Day(t[i]);
      }
    }
  }

  lemma RowKeyUsedIff(cal: Calendar, today: int, ms: seq<Message>, id: string)
    ensures "message-" + id in Keys(Labelled(cal, today, None, ms)) <==> id in Ids(ms)
  {
    LabelledKeys(cal, today, ms);
    forall a | a in Ids(ms) ensures "message-" + a == "message-" + id <==> a == id { RowKeysDiffer(a, id); }
    forall d | d in Days(cal, ms) ensures BaseId(cal, d) != "message-" + id { LabelIsNoRowKey(cal, d, id); }
  }

  lemma LabelKeyUsedIff(cal: Calendar, today: int, ms: seq<Message>, day: int)
    requires cal.Valid()
    ensures BaseId(cal, day) in Keys(Labelled(cal, today, None, ms)) <==> day in Days(cal, ms)
  {
    LabelledKeys(cal, today, ms);
    forall a | a in Ids(ms) ensures BaseId(cal, day) != "message-" + a { LabelIsNoRowKey(cal, day, a); }
    forall d | d in Days(cal, ms) ensures BaseId(cal, d) == BaseId(cal, day) <==> d == day {
      LabelKeysDiffer(cal, d, day);
    }
  }

  /** Whether one more message keeps the keys distinct. */
  lemma KeysDistinctSnoc(cal: Calendar, today: int, front: seq<Message>, m: Message)
    requires cal.Valid()
    ensures KeysDistinct(Labelled(cal, today, None, front + [m]))
       <==> && KeysDistinct(Labelled(cal, today, None, front))
            && m.id !in Ids(front)
            && (LastDay(cal, None, front) == Some(cal.Day(m)) || cal.Day(m) !in Days(cal, front))
  {
    var es, day := Labelled(cal, today, None, front), cal.Day(m);
    LabelledSnoc(cal, today, None, front, m);
    RowKeyUsedIff(cal, today, front, m.id);
    LabelKeyUsedIff(cal, today, front, day);
    if LastDay(cal, None, front) == Some(day) {
      KeysSnoc(es, Row(m));
      assert Tail(cal, today, LastDay(cal, None, front), m) == [Row(m)];
    } else {
      assert Tail(cal, today, LastDay(cal, None, front), m) == [LabelFor(cal, today, day), Row(m)];
      LabelIsNoRowKey(cal, day, m.id);
      KeysSnocPair(es, LabelFor(cal, today, day), Row(m));
    }
  }

  lemma KeysSnocPair(es: seq<Entry>, e: Entry, f: Entry)
    requires Key(e) != Key(f)
    ensures KeysDistinct(es + [e, f]) <==> KeysDistinct(es) && Key(e) !in Keys(es) && Key(f) !in Keys(es)
  {
    KeysSnoc(es, e);
    KeysSnoc(es + [e], f);
    assert es + [e, f] == es + [e] + [f];
    assert e in es + [e];
    assert Keys(es + [e]) == Keys(es) + {Key(e)};
  }

  /** The list keys are pairwise distinct exactly when no day is entered twice and no id repeats.
      The dead counter is why days entered twice collide. */
  lemma {:induction false} KeysDistinctIff(cal: Calendar, today: int, ms: seq<Message>)
    requires cal.Valid()
    ensures KeysDistinct(Labelled(cal, today, None, ms)) <==> DaysTogether(cal, ms) && IdsDistinct(ms)
  {
    if ms == [] {
    } else {
      var front, m := DropLast(ms), Last(ms);
      assert ms == front + [m];
      KeysDistinctIff(cal, today, front);
      KeysDistinctSnoc(cal, today, front, m);
      IdsDistinctSnoc(front, m);
      if DaysTogether(cal, ms) {
        DaysTogetherShrink(cal, front, m);
      } else if DaysTogether(cal, front)
        && (front == [] || cal.Day(Last(front)) == cal.Day(m) || cal.Day(m) !in Days(cal, front)) {
        DaysTogetherExtend(cal, front, m);
      }
    }
  }
}
