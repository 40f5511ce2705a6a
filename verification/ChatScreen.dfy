/** The message store of the chat screen: state updates queued by the handlers, the render that
    applies them, and the effect that trims a long list. */
module ChatScreen {
  import opened Sequences
  import opened Messages
  import opened DateLabels
  import opened Timeline
  import opened SenderRuns

  const LONG_LIST: nat := 100
  const KEPT: nat := 50

  // ---------------------------------------------------------------- updates

  /** What a handler passes to `setMessages`. */
  datatype Update =
    | Load(list: seq<Message>)
    | Append(m: Message)
    | Unsend(id: string)
    | Replace(id: string, m: Message)
    | Trim

  function MarkUnsent(id: string): Message -> Message {
    (m: Message) => if m.id == id then m.(isUnsend := true) else m
  }

  function ReplaceWith(id: string, n: Message): Message -> Message {
    (m: Message) => if m.id == id then n else m
  }

  function Apply(u: Update, s: seq<Message>): seq<Message> {
    match u
    case Load(list) => list
    case Append(m) => s + [m]
    case Unsend(id) => Map(MarkUnsent(id), s)
    case Replace(id, m) => Map(ReplaceWith(id, m), s)
    case Trim => TakeLast(s, KEPT)
  }

  function ApplyAll(us: seq<Update>, s: seq<Message>): seq<Message> {
    if us == [] then s else Apply(Last(us), ApplyAll(DropLast(us), s))
  }

  // ---------------------------------------------------------------- marks commute with the view

  /** An unsend in the store is the same unsend on the screen: same order, labels and keys, every row
      of the message marked and no other row touched. */
  lemma UnsendCommutes(cal: Calendar, today: int, s: seq<Message>, id: string)
    ensures var before, after := TimelineOf(cal, today, s), TimelineOf(cal, today, Apply(Unsend(id), s));
      && after == MapRows(MarkUnsent(id), before)
      && (forall k :: 0 <= k < |before| ==> Key(after[k]) == Key(before[k]))
      && (forall k :: 0 <= k < |before| && before[k].Row? ==>
            after[k] == Row(before[k].msg.(isUnsend := before[k].msg.isUnsend || before[k].msg.id == id)))
  {
    ChangeInPlace(MarkUnsent(id), cal, today, s);
  }

  /** A change that keeps the senders of the rows keeps the closing rows. */
  lemma SendersKeepFlags(f: Message -> Message, es: seq<Entry>, k: nat)
    requires forall i :: 0 <= i < |es| && es[i].Row? ==> f(es[i].msg).userId == es[i].msg.userId
    requires k < |es| && es[k].Row?
    ensures LastFromSender(MapRows(f, es), k) <==> LastFromSender(es, k)
  {
    assert k + 1 < |es| ==> MapRows(f, es)[k + 1] == MapRow(f, es[k + 1]);
  }

  /** So an unsend keeps them. */
  lemma UnsendKeepsFlags(es: seq<Entry>, id: string, k: nat)
    requires k < |es| && es[k].Row?
    ensures LastFromSender(MapRows(MarkUnsent(id), es), k) <==> LastFromSender(es, k)
  {
    SendersKeepFlags(MarkUnsent(id), es, k);
  }

  /** A second unsend changes nothing, in the store and on the screen. */
  lemma UnsendIdempotent(cal: Calendar, today: int, s: seq<Message>, id: string)
    ensures Apply(Unsend(id), Apply(Unsend(id), s)) == Apply(Unsend(id), s)
    ensures var once := TimelineOf(cal, today, Apply(Unsend(id), s)); MapRows(MarkUnsent(id), once) == once
  {
    UnsendCommutes(cal, today, Apply(Unsend(id), s), id);
    assert Apply(Unsend(id), Apply(Unsend(id), s)) == Apply(Unsend(id), s);
  }

  /** `messages.find(msg => msg.id === messageId)`. */
  function Find(s: seq<Message>, id: string): (r: Option<Message>)
    ensures r.Some? ==> r.value in s && r.value.id == id
    ensures r.None? ==> id !in Ids(s)
  {
    if s == [] then None
    else if s[0].id == id then Some(s[0])
    else Find(s[1..], id)
  }

  /** The update a finished translation queues for the copy taken when it started. */
  function TranslationOf(copy: Message, text: string): Update {
    Replace(copy.id, copy.(translated := Some(text)))
  }

  /** A translation commutes with the view whenever every held copy of the message has the creation
      time of the copy the translation started from: that copy with its text takes the place of every
      row of the message, and no other row is touched. */
  lemma TranslateCommutes(cal: Calendar, today: int, s: seq<Message>, copy: Message, text: string)
    requires forall m :: m in s && m.id == copy.id ==> m.createdAt == copy.createdAt
    ensures var f := ReplaceWith(copy.id, copy.(translated := Some(text)));
      var before, after := TimelineOf(cal, today, s), TimelineOf(cal, today, Apply(TranslationOf(copy, text), s));
      && after == MapRows(f, before)
      && (forall k :: 0 <= k < |before| ==> Key(after[k]) == Key(before[k]))
      && (forall k :: 0 <= k < |before| && before[k].Row? ==>
            after[k] == if before[k].msg.id == copy.id then Row(copy.(translated := Some(text))) else before[k])
  {
    ChangeInPlace(ReplaceWith(copy.id, copy.(translated := Some(text))), cal, today, s);
  }

  /** In particular for a copy found in the store itself, while ids and times determine each other. */
  lemma TranslateFoundCommutes(cal: Calendar, today: int, s: seq<Message>, id: string, text: string)
    requires IdsMatchTimes(s) && Find(s, id).Some?
    ensures var copy := Find(s, id).value;
      TimelineOf(cal, today, Apply(TranslationOf(copy, text), s))
      == MapRows(ReplaceWith(id, copy.(translated := Some(text))), TimelineOf(cal, today, s))
  {
    var copy := Find(s, id).value;
    var i :| 0 <= i < |s| && s[i] == copy;
    forall m | m in s && m.id == copy.id ensures m.createdAt == copy.createdAt {
      var j :| 0 <= j < |s| && s[j] == m;
      assert s[i].id == s[j].id;
    }
    TranslateCommutes(cal, today, s, copy, text);
  }

  /** And it keeps the closing rows when the message's rows have the copy's sender. */
  lemma TranslateKeepsFlags(es: seq<Entry>, copy: Message, text: string, k: nat)
    requires forall i :: 0 <= i < |es| && es[i].Row? && es[i].msg.id == copy.id ==> es[i].msg.userId == copy.userId
    requires k < |es| && es[k].Row?
    ensures LastFromSender(MapRows(ReplaceWith(copy.id, copy.(translated := Some(text))), es), k)
      <==> LastFromSender(es, k)
  {
    SendersKeepFlags(ReplaceWith(copy.id, copy.(translated := Some(text))), es, k);
  }

  /** The condition on creation times is needed: where a message is held twice with another between,
      translating its first copy puts both copies at the same place, and the later row is gone. */
  lemma TwiceHeldTranslation(a: Message, b: Message, c: Message, text: string)
    requires a.id == c.id && b.id != a.id && a.createdAt < b.createdAt < c.createdAt
    ensures var s := [a, b, c]; var n := a.(translated := Some(text));
      && Find(s, a.id) == Some(a) && Shown(s) == [a, b, c]
      && Shown(Apply(TranslationOf(a, text), s)) == [n, b]
      && Map(ReplaceWith(a.id, n), Shown(s)) == [n, b, n]
  {
    var n := a.(translated := Some(text));
    StableSortIff([a, b, c], [a, b, c]);
    ThreeDiffer(a, b, c);
    assert Apply(TranslationOf(a, text), [a, b, c]) == [n, b, n];
    TwoThenLater(n, b);
  }

  lemma ThreeDiffer(a: Message, b: Message, c: Message)
    requires a.id != b.id && b.id != c.id
    ensures DropRepeats([a, b, c]) == [a, b, c]
  {
    DropRepeatsSnoc([a, b], c);
    DropRepeatsSnoc([a], b);
    DropRepeatsSnoc([], a);
    assert [a, b] + [c] == [a, b, c] && [a] + [b] == [a, b] && [] + [a] == [a];
  }

  lemma SlicesCommute(n: Message, b: Message, t: int)
    requires n.createdAt != b.createdAt
    ensures AtTime([n, n, b], t) == AtTime([n, b, n], t)
  {
    SliceOfThree(n, n, b, t);
    SliceOfThree(n, b, n, t);
    if n.createdAt != t {
      NoneAtTime([n], t);
    } else {
      NoneAtTime([b], t);
    }
  }

  lemma SliceOfThree(a: Message, b: Message, c: Message, t: int)
    ensures AtTime([a, b, c], t) == AtTime([a], t) + AtTime([b], t) + AtTime([c], t)
  {
    AtTimeAppend([a, b], [c], t);
    AtTimeAppend([a], [b], t);
    assert [a, b] + [c] == [a, b, c] && [a] + [b] == [a, b];
  }

  lemma TwoThenLater(n: Message, b: Message)
    requires n.id != b.id && n.createdAt < b.createdAt
    ensures Shown([n, b, n]) == [n, b]
  {
    forall t ensures AtTime([n, n, b], t) == AtTime([n, b, n], t) {
      SlicesCommute(n, b, t);
    }
    StableSortIff([n, b, n], [n, n, b]);
    DropRepeatsSnoc([n, n], b);
    DropRepeatsSnoc([n], n);
    DropRepeatsSnoc([], n);
    assert [n, n] + [b] == [n, n, b] && [n] + [n] == [n, n] && [] + [n] == [n];
  }

  /** A translation committed after an unsend of the same held message keeps the mark exactly when
      the copy it started from already had it. */
  lemma MarkSurvivesTranslationIff(s: seq<Message>, copy: Message, text: string)
    requires copy.id in Ids(s)
    ensures var after := Apply(TranslationOf(copy, text), Apply(Unsend(copy.id), s));
      (forall m :: m in after && m.id == copy.id ==> m.isUnsend) <==> copy.isUnsend
  {
    var marked := Apply(Unsend(copy.id), s);
    var after := Apply(TranslationOf(copy, text), marked);
    var x :| x in s && x.id == copy.id;
    var i :| 0 <= i < |s| && s[i] == x;
    assert marked[i] == MarkUnsent(copy.id)(s[i]);
    assert after[i] == ReplaceWith(copy.id, copy.(translated := Some(text)))(marked[i]);
    assert after[i] in after && after[i].id == copy.id;
    forall m | m in after && m.id == copy.id ensures m.isUnsend == copy.isUnsend {
      var j :| 0 <= j < |after| && after[j] == m;
      assert after[j] == ReplaceWith(copy.id, copy.(translated := Some(text)))(marked[j]);
      assert marked[j] == MarkUnsent(copy.id)(s[j]);
    }
  }

  // ---------------------------------------------------------------- loading

  function VisibleTo(me: int, raw: seq<Message>): seq<Message> {
    Filter((m: Message) => me !in m.deletedFor, raw)
  }

  /** An empty stored text counts as none. */
  function PutBack(stored: map<string, string>): Message -> Message {
    (m: Message) => if m.id in stored && stored[m.id] != "" then m.(translated := Some(stored[m.id])) else m
  }

  /** What `getAllMessage` stores: the messages `me` has not deleted, with stored translations put back. */
  function LoadedMessages(raw: seq<Message>, me: int, stored: map<string, string>): seq<Message> {
    Map(PutBack(stored), VisibleTo(me, raw))
  }

  /** A load shows exactly the messages not deleted by `me`, and the stored translations change
      nothing but the texts: the timeline is that of the bare messages, row by row. */
  lemma LoadShowsVisible(cal: Calendar, today: int, raw: seq<Message>, me: int, stored: map<string, string>)
    ensures TimelineOf(cal, today, LoadedMessages(raw, me, stored))
      == MapRows(PutBack(stored), TimelineOf(cal, today, VisibleTo(me, raw)))
    ensures forall m :: m in VisibleTo(me, raw) <==> m in raw && me !in m.deletedFor
    ensures var bare, shown := VisibleTo(me, raw), LoadedMessages(raw, me, stored);
      && |shown| == |bare|
      && (forall i :: 0 <= i < |bare| ==> shown[i] == bare[i].(translated := shown[i].translated))
      && (forall i :: 0 <= i < |bare| && bare[i].id in stored && stored[bare[i].id] != "" ==>
            shown[i].translated == Some(stored[bare[i].id]))
      && (forall i :: 0 <= i < |bare| && (bare[i].id !in stored || stored[bare[i].id] == "") ==> shown[i] == bare[i])
  {
    ChangeInPlace(PutBack(stored), cal, today, VisibleTo(me, raw));
    FilterMembers((m: Message) => me !in m.deletedFor, raw);
  }

  // ---------------------------------------------------------------- state machine

  /** `seenLength` is the length the trim effect last saw; `effectDue` says that a render has been
      committed and its effects have not run yet. */
  datatype State = State(messages: seq<Message>, queue: seq<Update>, seenLength: nat, effectDue: bool)

  const INIT := State([], [], 0, false)

  datatype Event =
    | NewMessage(m: Message)
    | MessageUnsent(success: bool, id: string)
    | MessagesLoaded(success: bool, list: seq<Message>)
    | Translated(copy: Message, text: string)
    | Render
    | RunEffects

  /** The update an event queues, if any; only the trim effect queues a trim. */
  function Queued(e: Event): (r: Option<Update>)
    ensures r.Some? ==> !r.value.Trim?
  {
    match e
    case NewMessage(m) => Some(Append(m))
    case MessageUnsent(success, id) => if success then Some(Unsend(id)) else None
    case MessagesLoaded(success, list) => if success then Some(Load(list)) else None
    case Translated(copy, text) => if text != "" then Some(TranslationOf(copy, text)) else None
    case Render => None
    case RunEffects => None
  }

  /** Effects depend on the list's length: they do nothing when it is the one seen before. */
  function Effects(st: State): State {
    if !st.effectDue then st
    else if |st.messages| == st.seenLength then st.(effectDue := false)
    else
      var seen := st.(seenLength := |st.messages|, effectDue := false);
      if |st.messages| > LONG_LIST then seen.(queue := st.queue + [Trim]) else seen
  }

  /** Effects of the last commit always run before the next render. */
  function Rendered(st: State): State {
    var ready := Effects(st);
    ready.(messages := ApplyAll(ready.queue, ready.messages), queue := [], effectDue := true)
  }

  function Step(st: State, e: Event): State {
    match e
    case Render => Rendered(st)
    case RunEffects => Effects(st)
    case _ => if Queued(e).Some? then st.(queue := st.queue + [Queued(e).value]) else st
  }

  function Run(es: seq<Event>): State {
    if es == [] then INIT else Step(Run(DropLast(es)), Last(es))
  }

  /** Nothing is left to apply or to run. */
  predicate Settled(st: State) {
    st.queue == [] && !st.effectDue
  }

  /** What the store will hold once its queue is applied. */
  function Projected(st: State): seq<Message> {
    ApplyAll(st.queue, st.messages)
  }

  /** The last load followed by all later arrivals, marked alike but never trimmed. */
  function History(es: seq<Event>): seq<Message> {
    if es == [] then []
    else ExtendHistory(History(DropLast(es)), Last(es))
  }

  /** What each event means for the history: arrivals are appended, a successful load replaces all,
      unsends and translations change the messages of their id, failures change nothing. */
  function ExtendHistory(h: seq<Message>, e: Event): seq<Message> {
    match e
    case NewMessage(m) => h + [m]
    case MessageUnsent(true, id) => Map((m: Message) => if m.id == id then m.(isUnsend := true) else m, h)
    case MessagesLoaded(true, list) => list
    case Translated(copy, text) =>
      if text == "" then h
      else Map((m: Message) => if m.id == copy.id then copy.(translated := Some(text)) else m, h)
    case _ => h
  }

  lemma HistoryQueued(h: seq<Message>, e: Event)
    ensures ExtendHistory(h, e) == if Queued(e).Some? then Apply(Queued(e).value, h) else h
  {
  }

  ghost predicate SuffixOf(s: seq<Message>, h: seq<Message>) {
    |s| <= |h| && s == h[|h| - |s|..]
  }

  /** `s` is the end of `h`, and all of it when shorter than a trimmed list. */
  ghost predicate Follows(s: seq<Message>, h: seq<Message>) {
    SuffixOf(s, h) && (|s| >= KEPT || s == h)
  }

  lemma MapFollows(f: Message -> Message, s: seq<Message>, h: seq<Message>)
    requires Follows(s, h)
    ensures Follows(Map(f, s), Map(f, h))
  {
    assert Map(f, h)[|h| - |s|..] == Map(f, s);
  }

  lemma ApplyFollows(u: Update, s: seq<Message>, h: seq<Message>)
    requires Follows(s, h)
    ensures !u.Trim? ==> Follows(Apply(u, s), Apply(u, h))
    ensures Follows(Apply(Trim, s), h)
  {
    match u
    case Append(m) =>
      assert (h + [m])[|h| - |s|..] == s + [m];
    case Unsend(id) =>
      MapFollows(MarkUnsent(id), s, h);
    case Replace(id, m) =>
      MapFollows(ReplaceWith(id, m), s, h);
    case _ =>
  }

  lemma ProjectedSnoc(st: State, u: Update)
    ensures Projected(st.(queue := st.queue + [u])) == Apply(u, Projected(st))
  {
    assert DropLast(st.queue + [u]) == st.queue;
  }

  lemma ProjectedEffects(st: State)
    ensures Projected(Effects(st)) == Projected(st) || Projected(Effects(st)) == Apply(Trim, Projected(st))
  {
    ProjectedSnoc(st, Trim);
  }

  lemma ProjectedRendered(st: State)
    ensures Projected(Rendered(st)) == Projected(Effects(st))
  {
    assert ApplyAll([], Rendered(st).messages) == Rendered(st).messages;
  }

  lemma EffectsFollow(st: State, h: seq<Message>)
    requires Follows(Projected(st), h)
    ensures Follows(Projected(Effects(st)), h)
  {
    ProjectedEffects(st);
    ApplyFollows(Trim, Projected(st), h);
  }

  lemma QueueFollows(st: State, h: seq<Message>, u: Update)
    requires Follows(Projected(st), h) && !u.Trim?
    ensures Follows(Projected(st.(queue := st.queue + [u])), Apply(u, h))
  {
    ProjectedSnoc(st, u);
    ApplyFollows(u, Projected(st), h);
  }

  lemma HandlerFollows(st: State, h: seq<Message>, e: Event)
    requires !e.Render? && !e.RunEffects? && Follows(Projected(st), h)
    ensures Follows(Projected(Step(st, e)), ExtendHistory(h, e))
  {
    HistoryQueued(h, e);
    if Queued(e).Some? {
      var u := Queued(e).value;
      assert Step(st, e) == st.(queue := st.queue + [u]);
      QueueFollows(st, h, u);
    }
  }

  lemma CommitProjects(st: State, e: Event)
    requires e.Render? || e.RunEffects?
    ensures Projected(Step(st, e)) == Projected(Effects(st))
  {
    if e.Render? {
      ProjectedRendered(st);
    }
  }

  lemma CommitKeepsHistory(h: seq<Message>, e: Event)
    requires e.Render? || e.RunEffects?
    ensures ExtendHistory(h, e) == h
  {
  }

  lemma CommitFollows(st: State, h: seq<Message>, e: Event)
    requires (e.Render? || e.RunEffects?) && Follows(Projected(st), h)
    ensures Follows(Projected(Step(st, e)), ExtendHistory(h, e))
  {
    EffectsFollow(st, h);
    CommitProjects(st, e);
    CommitKeepsHistory(h, e);
  }

  lemma StepFollows(st: State, h: seq<Message>, e: Event)
    requires Follows(Projected(st), h)
    ensures Follows(Projected(Step(st, e)), ExtendHistory(h, e))
  {
    if e.Render? || e.RunEffects? {
      CommitFollows(st, h, e);
    } else {
      HandlerFollows(st, h, e);
    }
  }

  lemma {:induction false} ProjectedFollows(es: seq<Event>)
    ensures Follows(Projected(Run(es)), History(es))
  {
    if es == [] {
    } else {
      ProjectedFollows(DropLast(es));
      StepFollows(Run(DropLast(es)), History(DropLast(es)), Last(es));
    }
  }

  /** In every settled state of every run the store is a suffix of the untrimmed history, with the
      same unsend and translation marks, and is the whole history unless it still has 50 messages. */
  lemma SettledIsSuffix(es: seq<Event>)
    requires Settled(Run(es))
    ensures var s, h := Run(es).messages, History(es);
      SuffixOf(s, h) && |s| >= (if |h| < 50 then |h| else 50)
  {
    ProjectedFollows(es);
  }

  // ---------------------------------------------------------------- arrivals are held

  /** A handler's event is applied to what the store will hold, whatever is queued before it. */
  lemma HandlerProjects(st: State, e: Event)
    requires !e.Render? && !e.RunEffects?
    ensures Projected(Step(st, e)) == ExtendHistory(Projected(st), e)
  {
    HistoryQueued(Projected(st), e);
    if Queued(e).Some? {
      ProjectedSnoc(st, Queued(e).value);
    }
  }

  /** A delivered message is appended. */
  lemma ArrivalProjects(st: State, m: Message)
    ensures Projected(Step(st, NewMessage(m))) == Projected(st) + [m]
  {
    HandlerProjects(st, NewMessage(m));
  }

  /** A failed unsend, load or translation changes nothing at all. */
  lemma FailureChangesNothing(st: State, id: string, list: seq<Message>, copy: Message)
    ensures Step(st, MessageUnsent(false, id)) == st
    ensures Step(st, MessagesLoaded(false, list)) == st
    ensures Step(st, Translated(copy, "")) == st
  {
  }

  /** The messages that arrive from event `n` on. */
  function ArrivalsFrom(es: seq<Event>, n: nat): nat
    requires n <= |es|
  {
    if |es| == n then 0 else ArrivalsFrom(DropLast(es), n) + if Last(es).NewMessage? then 1 else 0
  }

  ghost predicate NotReloaded(es: seq<Event>, n: nat) {
    forall i :: n <= i < |es| && es[i].MessagesLoaded? ==> !es[i].success
  }

  predicate Spares(e: Event, id: string) {
    (e.MessageUnsent? ==> e.id != id) && (e.Translated? ==> e.copy.id != id)
  }

  /** Nobody unsends or translates the message from event `n` on. */
  ghost predicate LeftAlone(es: seq<Event>, n: nat, id: string) {
    forall i :: n <= i < |es| ==> Spares(es[i], id)
  }

  /** `s` has a message of that id `behind` places before its end, and it is `m` itself if left alone. */
  ghost predicate HasAt(s: seq<Message>, m: Message, behind: nat, alone: bool) {
    behind < |s| && s[|s| - 1 - behind].id == m.id && (alone ==> s[|s| - 1 - behind] == m)
  }

  lemma HandlerHasAt(s: seq<Message>, e: Event, m: Message, behind: nat, alone: bool)
    requires HasAt(s, m, behind, alone) && (e.MessagesLoaded? ==> !e.success)
    ensures HasAt(ExtendHistory(s, e), m, behind + if e.NewMessage? then 1 else 0, alone && Spares(e, m.id))
  {
  }

  lemma CommitHasAt(st: State, e: Event, m: Message, behind: nat, alone: bool)
    requires HasAt(Projected(st), m, behind, alone) && behind < KEPT && (e.Render? || e.RunEffects?)
    ensures HasAt(Projected(Step(st, e)), m, behind, alone)
  {
    ProjectedEffects(st);
    CommitProjects(st, e);
    TrimHasAt(Projected(st), m, behind, alone);
  }

  lemma TrimHasAt(s: seq<Message>, m: Message, behind: nat, alone: bool)
    requires HasAt(s, m, behind, alone) && behind < KEPT
    ensures HasAt(Apply(Trim, s), m, behind, alone)
  {
  }

  lemma StepHasAt(st: State, e: Event, m: Message, behind: nat, alone: bool)
    requires HasAt(Projected(st), m, behind, alone) && behind < KEPT && (e.MessagesLoaded? ==> !e.success)
    ensures HasAt(Projected(Step(st, e)), m, behind + if e.NewMessage? then 1 else 0, alone && Spares(e, m.id))
  {
    if e.Render? || e.RunEffects? {
      CommitHasAt(st, e, m, behind, alone);
    } else {
      HandlerProjects(st, e);
      HandlerHasAt(Projected(st), e, m, behind, alone);
    }
  }

  lemma {:induction false} ArrivalStaysAt(es: seq<Event>, n: nat, m: Message)
    requires n < |es| && es[n] == NewMessage(m) && NotReloaded(es, n) && ArrivalsFrom(es, n + 1) < 50
    ensures HasAt(Projected(Run(es)), m, ArrivalsFrom(es, n + 1), LeftAlone(es, n + 1, m.id))
  {
    var front, e := DropLast(es), Last(es);
    if n == |es| - 1 {
      ArrivalProjects(Run(front), m);
    } else {
      ArrivalStaysAt(front, n, m);
      StepHasAt(Run(front), e, m, ArrivalsFrom(front, n + 1), LeftAlone(front, n + 1, m.id));
    }
  }

  /** In every run a delivered message is held, as many places before the end as messages arrived after
      it, unless the store is loaded again or 50 have; and unchanged if nobody unsends or translates it. */
  lemma ArrivalIsHeld(es: seq<Event>, n: nat, m: Message)
    requires n < |es| && es[n] == NewMessage(m) && NotReloaded(es, n) && ArrivalsFrom(es, n + 1) < 50
    requires Settled(Run(es))
    ensures var s, place := Run(es).messages, |Run(es).messages| - 1 - ArrivalsFrom(es, n + 1);
      0 <= place && s[place].id == m.id && (LeftAlone(es, n + 1, m.id) ==> s[place] == m)
  {
    ArrivalStaysAt(es, n, m);
  }

  // ---------------------------------------------------------------- unsends last

  ghost predicate AllMarked(s: seq<Message>, id: string) {
    forall m :: m in s && m.id == id ==> m.isUnsend
  }

  /** `e` brings in no unmarked copy of the message. */
  ghost predicate BringsNoUnmarked(e: Event, id: string) {
    match e
    case NewMessage(m) => AllMarked([m], id)
    case MessagesLoaded(success, list) => success ==> AllMarked(list, id)
    case Translated(copy, text) => text != "" ==> AllMarked([copy], id)
    case _ => true
  }

  lemma QueuedKeepsMark(s: seq<Message>, e: Event, id: string)
    requires AllMarked(s, id) && BringsNoUnmarked(e, id) && Queued(e).Some?
    ensures AllMarked(Apply(Queued(e).value, s), id)
  {
    var after := Apply(Queued(e).value, s);
    match e
    case MessageUnsent(_, other) =>
      assert forall i :: 0 <= i < |s| ==> after[i] == MarkUnsent(other)(s[i]) && s[i] in s;
    case Translated(copy, text) =>
      assert copy in [copy];
      var f := ReplaceWith(copy.id, copy.(translated := Some(text)));
      assert forall i :: 0 <= i < |s| ==> after[i] == f(s[i]) && s[i] in s;
    case NewMessage(m) =>
      assert m in [m];
    case _ =>
  }

  lemma CommitKeepsMark(st: State, e: Event, id: string)
    requires AllMarked(Projected(st), id) && (e.Render? || e.RunEffects?)
    ensures AllMarked(Projected(Step(st, e)), id)
  {
    var s := Projected(st);
    ProjectedEffects(st);
    CommitProjects(st, e);
    TrimKeepsMark(s, id);
  }

  lemma TrimKeepsMark(s: seq<Message>, id: string)
    requires AllMarked(s, id)
    ensures AllMarked(Apply(Trim, s), id)
  {
    assert forall m :: m in Apply(Trim, s) ==> m in s;
  }

  lemma StepKeepsMark(st: State, e: Event, id: string)
    requires AllMarked(Projected(st), id) && BringsNoUnmarked(e, id)
    ensures AllMarked(Projected(Step(st, e)), id)
  {
    if e.Render? || e.RunEffects? {
      CommitKeepsMark(st, e, id);
    } else if Queued(e).Some? {
      var u := Queued(e).value;
      assert Step(st, e) == st.(queue := st.queue + [u]);
      ProjectedSnoc(st, u);
      QueuedKeepsMark(Projected(st), e, id);
    } else {
      assert Step(st, e) == st;
    }
  }

  lemma UnsendMarks(st: State, id: string)
    ensures AllMarked(Projected(Step(st, MessageUnsent(true, id))), id)
  {
    ProjectedSnoc(st, Unsend(id));
    UnsendMarksAll(Projected(st), id);
  }

  lemma UnsendMarksAll(s: seq<Message>, id: string)
    ensures AllMarked(Apply(Unsend(id), s), id)
  {
    var after := Apply(Unsend(id), s);
    forall m | m in after && m.id == id ensures m.isUnsend {
      var i :| 0 <= i < |after| && after[i] == m;
      assert after[i] == MarkUnsent(id)(s[i]);
    }
  }

  lemma {:induction false} MarkedSince(es: seq<Event>, n: nat, id: string)
    requires n < |es| && es[n] == MessageUnsent(true, id)
    requires forall i :: n < i < |es| ==> BringsNoUnmarked(es[i], id)
    ensures AllMarked(Projected(Run(es)), id)
  {
    var st := Run(DropLast(es));
    if n == |es| - 1 {
      UnsendMarks(st, id);
    } else {
      MarkedSince(DropLast(es), n, id);
      StepKeepsMark(st, Last(es), id);
    }
  }

  /** An unsend lasts: whatever arrives, is trimmed or translated after it, as long as no unmarked
      copy of the message is brought in, a settled screen shows the message as unsent only. */
  lemma UnsendLasts(cal: Calendar, today: int, es: seq<Event>, n: nat, id: string)
    requires n < |es| && es[n] == MessageUnsent(true, id) && Settled(Run(es))
    requires forall i :: n < i < |es| ==> BringsNoUnmarked(es[i], id)
    ensures AllMarked(Run(es).messages, id) && AllMarked(Erase(TimelineOf(cal, today, Run(es).messages)), id)
  {
    MarkedSince(es, n, id);
    var s := Run(es).messages;
    assert Projected(Run(es)) == s;
    EraseLabelled(cal, today, None, Shown(s));
    ShownSorted(s);
    SortKeepsIds(s);
  }

  // ---------------------------------------------------------------- the upper bound

  /** While a trim is queued, nothing is queued that would leave more than 100 messages. */
  predicate Paced(st: State, e: Event) {
    Trim in st.queue && Queued(e).Some? ==> |Apply(Queued(e).value, Projected(st))| <= LONG_LIST
  }

  ghost predicate PacedRun(es: seq<Event>) {
    es == [] || (PacedRun(DropLast(es)) && Paced(Run(DropLast(es)), Last(es)))
  }

  ghost predicate Bounded(st: State) {
    && (Trim in st.queue ==> !st.effectDue && |Projected(st)| <= LONG_LIST)
    && (!st.effectDue ==> st.seenLength == |st.messages|)
    && (!st.effectDue && |st.messages| > LONG_LIST ==> Trim in st.queue)
    && (st.effectDue && |st.messages| > LONG_LIST ==> st.seenLength <= LONG_LIST)
  }

  lemma EffectsBounded(st: State)
    requires Bounded(st)
    ensures Bounded(Effects(st)) && !Effects(st).effectDue
  {
    assert DropLast(st.queue + [Trim]) == st.queue;
  }

  lemma StepBounded(st: State, e: Event)
    requires Bounded(st) && Paced(st, e)
    ensures Bounded(Step(st, e))
  {
    if e.Render? || e.RunEffects? {
      EffectsBounded(st);
    } else if Queued(e).Some? {
      assert DropLast(st.queue + [Queued(e).value]) == st.queue;
    }
  }

  lemma {:induction false} PacedRunBounded(es: seq<Event>)
    requires PacedRun(es)
    ensures Bounded(Run(es))
  {
    if es == [] {
    } else {
      PacedRunBounded(DropLast(es));
      StepBounded(Run(DropLast(es)), Last(es));
    }
  }

  /** On paced runs a settled store holds at most 100 messages. */
  lemma SettledAtMost100(es: seq<Event>)
    requires PacedRun(es) && Settled(Run(es))
    ensures |Run(es).messages| <= 100
  {
    PacedRunBounded(es);
  }

  /** The effects are due on a list of over 100 messages, nothing is queued, and the list has the
      very length they saw last, whatever it holds: the trim will be missed. */
  predicate Stalled(st: State) {
    st.effectDue && st.queue == [] && |st.messages| == st.seenLength > LONG_LIST
  }

  lemma StalledSettlesLong(es: seq<Event>)
    requires Stalled(Run(es))
    ensures Settled(Run(es + [RunEffects])) && |Run(es + [RunEffects]).messages| > LONG_LIST
  {
    assert DropLast(es + [RunEffects]) == es;
  }

  /** And that is the only way: a settled list of over 100 messages is a stalled one after its effects. */
  lemma {:induction false} SettledLongWasStalled(es: seq<Event>) returns (n: nat)
    requires Settled(Run(es)) && |Run(es).messages| > LONG_LIST
    ensures n < |es| && Stalled(Run(es[..n])) && Run(es) == Run(es[..n] + [RunEffects])
  {
    var front := DropLast(es);
    if Stalled(Run(front)) {
      n := |es| - 1;
      assert DropLast(front + [RunEffects]) == front;
    } else {
      assert Run(front) == Run(es);
      n := SettledLongWasStalled(front);
      assert front[..n] == es[..n];
    }
  }

  function LastRender(es: seq<Event>): (r: Option<nat>)
    ensures r.Some? ==> r.value < |es|
  {
    if es == [] then None else if Last(es).Render? then Some(|es| - 1) else LastRender(DropLast(es))
  }

  /** A render now commits over 100 messages, as many as the effect saw last. */
  predicate RestoresSeen(st: State) {
    var ready := Effects(st);
    |Projected(ready)| == ready.seenLength > LONG_LIST
  }

  /** What has become of the list and of the length seen since the last render. */
  ghost predicate SinceRender(st: State, messages: seq<Message>, seen: nat) {
    && st.messages == messages
    && (st.effectDue ==> st.seenLength == seen)
    && (!st.effectDue && st.queue == [] ==> |messages| == seen || |messages| <= LONG_LIST)
  }

  lemma StepSinceRender(st: State, e: Event, messages: seq<Message>, seen: nat)
    requires SinceRender(st, messages, seen) && !e.Render?
    ensures SinceRender(Step(st, e), messages, seen)
  {
  }

  lemma {:induction false} RunSinceRender(es: seq<Event>)
    ensures var n := LastRender(es);
      if n.None? then SinceRender(Run(es), [], 0)
      else var ready := Effects(Run(es[..n.value])); SinceRender(Run(es), Projected(ready), ready.seenLength)
  {
    if es == [] {
    } else {
      var front, n := DropLast(es), LastRender(es);
      if !Last(es).Render? {
        RunSinceRender(front);
        assert n.Some? ==> es[..n.value] == front[..n.value];
        var ready := if n.None? then INIT else Effects(Run(es[..n.value]));
        StepSinceRender(Run(front), Last(es), Projected(ready), ready.seenLength);
      }
    }
  }

  /** A settled store holds over 100 messages exactly when the last render restored the very length,
      over 100, that the trim effect had seen last. */
  lemma SettledLongIff(es: seq<Event>)
    requires Settled(Run(es))
    ensures |Run(es).messages| > 100 <==>
      LastRender(es).Some? && RestoresSeen(Run(es[..LastRender(es).value]))
  {
    RunSinceRender(es);
  }

  /** The effect queues a trim exactly for a list of over 100 messages whose length it has not just
      seen, and a trim leaves the last 50 messages, or all of them. */
  lemma EffectTrimsIff(st: State, s: seq<Message>)
    ensures Effects(st).queue == st.queue +
      if st.effectDue && |st.messages| != st.seenLength && |st.messages| > 100 then [Trim] else []
    ensures Apply(Trim, s) == if |s| <= 50 then s else s[|s| - 50..]
  {
    assert st.queue + [] == st.queue;
  }

  /** A load of an over-long list and its render queue the trim. */
  lemma LongLoad(list: seq<Message>)
    requires |list| > LONG_LIST
    ensures Effects(Rendered(INIT.(queue := [Load(list)]))) == State(list, [Trim], |list|, false)
    ensures Rendered(State(list, [Trim, Load(list)], |list|, false)) == State(list, [], |list|, true)
  {
    assert DropLast([Load(list)]) == [];
    assert DropLast([Trim, Load(list)]) == [Trim];
    assert [Trim] == [] + [Trim];
  }

  /** Pacing is needed: reloading a list of over 100 messages while the trim of the first load is
      queued ends in a settled store of that length. */
  lemma ReloadBeatsTrim(list: seq<Message>) returns (es: seq<Event>)
    requires |list| > LONG_LIST
    ensures Settled(Run(es)) && Run(es).messages == list && !PacedRun(es)
  {
    var load := MessagesLoaded(true, list);
    LongLoad(list);
    var e1 := [load];
    var e3 := e1 + [Render, RunEffects];
    var e4 := e3 + [load];
    var e5 := e4 + [Render];
    es := e5 + [RunEffects];
    assert Run([]) == INIT;
    assert Run(e1) == INIT.(queue := [Load(list)]);
    assert DropLast(e3) == e1 + [Render];
    assert Run(e3) == State(list, [Trim], |list|, false);
    assert Run(e4).queue == [Trim, Load(list)];
    assert Run(e5) == State(list, [], |list|, true);
    assert Trim in Run(e3).queue && !Paced(Run(e3), load);
    assert !PacedRun(e4) && !PacedRun(e5);
  }

  // ---------------------------------------------------------------- the component

  /** The component's state and the handlers that change it. */
  class Screen {
    var messages: seq<Message>
    var queue: seq<Update>
    var seenLength: nat
    var effectDue: bool

    function Abs(): State
      reads this
    {
      State(messages, queue, seenLength, effectDue)
    }

    constructor ()
      ensures Abs() == INIT
    {
      messages, queue, seenLength, effectDue := [], [], 0, false;
    }

    /** `setMessages`. */
    method SetMessages(u: Update)
      modifies this`queue
      ensures queue == old(queue) + [u]
    {
      queue := queue + [u];
    }

    method HandleNewMessage(m: Message)
      modifies this`queue
      ensures Abs() == Step(old(Abs()), NewMessage(m))
    {
      SetMessages(Append(m));
    }

    method HandleMessageUnSended(success: bool, id: string)
      modifies this`queue
      ensures Abs() == Step(old(Abs()), MessageUnsent(success, id))
    {
      if success {
        SetMessages(Unsend(id));
      }
    }

    method GetAllMessage(success: bool, raw: seq<Message>, me: int, stored: map<string, string>)
      modifies this`queue
      ensures Abs() == Step(old(Abs()), MessagesLoaded(success, LoadedMessages(raw, me, stored)))
    {
      if success {
        SetMessages(Load(LoadedMessages(raw, me, stored)));
      }
    }

    method FinishTranslation(copy: Message, text: string)
      modifies this`queue
      ensures Abs() == Step(old(Abs()), Translated(copy, text))
    {
      if text != "" {
        SetMessages(Replace(copy.id, copy.(translated := Some(text))));
      }
    }

    /** `optimizeMemory`, run when the list's length is not the one it saw last. */
    method OptimizeMemory()
      modifies this
      ensures Abs() == Step(old(Abs()), RunEffects)
    {
      if effectDue {
        if |messages| != seenLength {
          seenLength := |messages|;
          if |messages| > LONG_LIST {
            SetMessages(Trim);
          }
        }
        effectDue := false;
      }
    }

    /** A render applies the queued updates in order. */
    method Commit()
      modifies this
      ensures Abs() == Step(old(Abs()), Render)
    {
      OptimizeMemory();
      ghost var before := messages;
      var pending := queue;
      queue := [];
      for i := 0 to |pending|
        invariant queue == [] && seenLength == Effects(old(Abs())).seenLength
        invariant messages == ApplyAll(pending[..i], before)
      {
        assert DropLast(pending[..i + 1]) == pending[..i];
        messages := Apply(pending[i], messages);
      }
      assert pending[..|pending|] == pending;
      effectDue := true;
    }
  }
}
