/** The meal-order book: the order screen's four redundant state fields, the order modal's own copy
    of the list, and the requests in flight with the state their handlers captured. */
module Orders {
  import opened Sequences
  import opened OrderWindow

  const CAP: nat := 100

  /** `Date.now()`. */
  type Clock = t: int | t > 0 witness 1

  /** Ids are truthy when not zero. */
  datatype Order = Order(id: int, date: int, shift: string, isPicked: bool)

  datatype DateShift = DateShift(date: int, shift: string)

  /** A delete request and the lists its handlers saw when the button was pressed. */
  datatype Deletion = Deletion(id: int, ordered: seq<Order>, local: seq<Order>)

  /** `syncDue` says that the modal has a new `orders` prop its effect has not copied yet. */
  datatype Book = Book(
    ordered: seq<Order>,
    orderedDates: seq<DateShift>,
    picked: int,
    selectedMap: map<int, string>,
    local: seq<Order>,
    syncDue: bool,
    presses: seq<DateShift>,
    deletions: seq<Deletion>)

  const INIT := Book([], [], 0, map[], [], true, [], [])

  datatype Event =
    | LoadOk(items: seq<Option<Order>>)
    | LoadWithoutData
    | LoadFailed
    | PressShift(date: int, shift: string)
    | PlaceOk(press: nat, serverId: Option<int>, now: Clock)
    | PlaceFailed(press: nat)
    | PressDelete(id: int)
    | DeleteOk(deletion: nat)
    | DeleteFailed(deletion: nat)
    | SyncModal

  // ---------------------------------------------------------------- list operations

  function Image(os: seq<Order>): (r: seq<DateShift>)
    ensures |r| == |os|
    ensures forall i :: 0 <= i < |os| ==> r[i] == DateShift(os[i].date, os[i].shift)
  {
    seq(|os|, i requires 0 <= i < |os| => DateShift(os[i].date, os[i].shift))
  }

  function PickedCount(os: seq<Order>): nat {
    if os == [] then 0 else PickedCount(DropLast(os)) + if Last(os).isPicked then 1 else 0
  }

  /** `.filter(item => item && item.id)` on a server answer, the kept items taken as orders. */
  function ValidItems(items: seq<Option<Order>>): seq<Order> {
    if items == [] then []
    else
      ValidItems(DropLast(items))
      + if Last(items).Some? && Last(items).value.id != 0 then [Last(items).value] else []
  }

  function HasOrderId(): Order -> bool {
    (o: Order) => o.id != 0
  }

  /** `.filter(order => order && order.id)` on a list of orders. */
  function WithId(os: seq<Order>): seq<Order> {
    Filter(HasOrderId(), os)
  }

  function OtherThan(id: int): Order -> bool {
    (o: Order) => o.id != id
  }

  /** `.filter(order => order.id !== id)`. */
  function Without(os: seq<Order>, id: int): seq<Order> {
    Filter(OtherThan(id), os)
  }

  /** `.find(order => order.id === id)`. */
  function FindOrder(os: seq<Order>, id: int): Option<Order> {
    if os == [] then None else if os[0].id == id then Some(os[0]) else FindOrder(os[1..], id)
  }

  function RemoveAt<T>(s: seq<T>, i: nat): seq<T>
    requires i < |s|
  {
    s[..i] + s[i + 1..]
  }

  // ---------------------------------------------------------------- what the screen shows

  /** `check_ordered`. */
  predicate CheckOrdered(b: Book, date: int, shift: string) {
    DateShift(date, shift) in b.orderedDates
  }

  /** `disable_ordered_btn`. */
  predicate ButtonDisabled(b: Book, date: int) {
    exists i :: 0 <= i < |b.orderedDates| && b.orderedDates[i].date == date
  }

  /** `isShiftSelected`. */
  predicate ShiftSelected(b: Book, date: int, shift: string) {
    (date in b.selectedMap && b.selectedMap[date] == shift) || CheckOrdered(b, date, shift)
  }

  /** The modal's `canDelete`. */
  predicate CanDelete(cfg: Config, o: Order) {
    o.date >= cfg.today && !o.isPicked
  }

  // ---------------------------------------------------------------- steps

  function WithOrders(b: Book, os: seq<Order>): Book {
    b.(ordered := os, orderedDates := Image(os), picked := PickedCount(os), syncDue := true)
  }

  /** `orderSuccess.data.data?.id || Date.now()`. */
  function NewId(serverId: Option<int>, now: Clock): int {
    if serverId.Some? && serverId.value != 0 then serverId.value else now
  }

  function Placed(b: Book, p: DateShift, id: int): Book {
    b.(selectedMap := b.selectedMap[p.date := p.shift],
       ordered := Take(b.ordered + [Order(id, p.date, p.shift, false)], CAP),
       orderedDates := Take(b.orderedDates + [p], CAP),
       syncDue := true)
  }

  /** `handleCancelOrder` on success, then `handleOrderDeleted`, each on the list it captured. */
  function Deleted(b: Book, d: Deletion): Book {
    var found := FindOrder(d.ordered, d.id);
    WithOrders(b.(local := Without(WithId(d.local), d.id),
                  selectedMap := if found.Some? then b.selectedMap - {found.value.date} else b.selectedMap),
               Without(d.ordered, d.id))
  }

  function Step(cfg: Config, b: Book, e: Event): Book {
    match e
    case LoadOk(items) => WithOrders(b, Take(ValidItems(items), CAP))
    case LoadWithoutData => b
    case LoadFailed => WithOrders(b, [])
    case PressShift(date, shift) =>
      if cfg.CanOrder(date) && !ButtonDisabled(b, date) then b.(presses := b.presses + [DateShift(date, shift)]) else b
    case PlaceOk(i, serverId, now) =>
      if i < |b.presses| then Placed(b.(presses := RemoveAt(b.presses, i)), b.presses[i], NewId(serverId, now)) else b
    case PlaceFailed(i) => if i < |b.presses| then b.(presses := RemoveAt(b.presses, i)) else b
    case PressDelete(id) =>
      if exists i :: 0 <= i < |b.local| && b.local[i].id == id && id != 0 && CanDelete(cfg, b.local[i])
      then b.(deletions := b.deletions + [Deletion(id, b.ordered, b.local)]) else b
    case DeleteOk(i) =>
      if i < |b.deletions| then Deleted(b.(deletions := RemoveAt(b.deletions, i)), b.deletions[i]) else b
    case DeleteFailed(i) => if i < |b.deletions| then b.(deletions := RemoveAt(b.deletions, i)) else b
    case SyncModal => if b.syncDue then b.(local := WithId(b.ordered), syncDue := false) else b
  }

  function Run(cfg: Config, es: seq<Event>): Book {
    if es == [] then INIT else Step(cfg, Run(cfg, DropLast(es)), Last(es))
  }

  // ---------------------------------------------------------------- agreement of the copies

  ghost predicate Bounded(os: seq<Order>) {
    |os| <= CAP && forall i :: 0 <= i < |os| ==> os[i].id != 0
  }

  /** `orderedDates` is the image of `ordered`, `picked` counts its picked orders, at most 100 are
      kept, and once its effect has run the modal's copy is the list itself. */
  ghost predicate Agreed(b: Book) {
    && b.orderedDates == Image(b.ordered)
    && b.picked == PickedCount(b.ordered)
    && Bounded(b.ordered)
    && (!b.syncDue ==> b.local == b.ordered)
  }

  /** And what running deletions captured is bounded too. */
  ghost predicate Sound(b: Book) {
    Agreed(b) && CapturesBounded(b)
  }

  lemma {:induction false} ValidItemsHaveIds(items: seq<Option<Order>>)
    ensures forall i :: 0 <= i < |ValidItems(items)| ==> ValidItems(items)[i].id != 0
  {
    if items == [] {
    } else {
      ValidItemsHaveIds(DropLast(items));
    }
  }

  /** A load keeps exactly the orders of the answer that exist and have an id. */
  lemma {:induction false} ValidItemsMembers(items: seq<Option<Order>>, o: Order)
    ensures o in ValidItems(items) <==> Some(o) in items && o.id != 0
  {
    if items == [] {
    } else {
      ValidItemsMembers(DropLast(items), o);
      assert items == DropLast(items) + [Last(items)];
    }
  }

  lemma WithoutBounded(os: seq<Order>, id: int)
    requires Bounded(os)
    ensures Bounded(Without(os, id))
  {
    FilterMembers(OtherThan(id), os);
    var r := Without(os, id);
    forall i | 0 <= i < |r| ensures r[i].id != 0 {
      assert r[i] in r;
    }
  }

  lemma CappedAppend(os: seq<Order>, o: Order)
    requires |os| <= CAP
    ensures Take(os + [o], CAP) == if |os| == CAP then os else os + [o]
    ensures Take(Image(os) + [DateShift(o.date, o.shift)], CAP) == Image(Take(os + [o], CAP))
  {
    if |os| == CAP {
      assert (os + [o])[..CAP] == os;
      assert (Image(os) + [DateShift(o.date, o.shift)])[..CAP] == Image(os);
    } else {
      assert Image(os + [o]) == Image(os) + [DateShift(o.date, o.shift)];
    }
  }

  lemma PlacedAgrees(b: Book, p: DateShift, id: int)
    requires Agreed(b) && id != 0
    ensures Agreed(Placed(b, p, id))
  {
    var o := Order(id, p.date, p.shift, false);
    CappedAppend(b.ordered, o);
    assert DropLast(b.ordered + [o]) == b.ordered;
  }

  lemma WithOrdersAgrees(b: Book, os: seq<Order>)
    requires Bounded(os)
    ensures Agreed(WithOrders(b, os))
  {
  }

  lemma LoadedBounded(items: seq<Option<Order>>)
    ensures Bounded(Take(ValidItems(items), CAP))
  {
    ValidItemsHaveIds(items);
  }

  lemma SyncAgrees(b: Book)
    requires Agreed(b)
    ensures Agreed(b.(local := WithId(b.ordered), syncDue := false))
  {
    FilterAll(HasOrderId(), b.ordered);
  }

  lemma DeletedAgrees(b: Book, d: Deletion)
    requires Bounded(d.ordered)
    ensures Agreed(Deleted(b, d))
  {
    WithoutBounded(d.ordered, d.id);
  }

  lemma StepAgrees(cfg: Config, b: Book, e: Event)
    requires Sound(b)
    ensures Agreed(Step(cfg, b, e))
  {
    match e
    case LoadOk(items) =>
      LoadedBounded(items);
      WithOrdersAgrees(b, Take(ValidItems(items), CAP));
    case LoadFailed =>
      WithOrdersAgrees(b, []);
    case PlaceOk(i, serverId, now) =>
      if i < |b.presses| {
        PlacedAgrees(b.(presses := RemoveAt(b.presses, i)), b.presses[i], NewId(serverId, now));
      }
    case DeleteOk(i) =>
      if i < |b.deletions| {
        DeletedAgrees(b.(deletions := RemoveAt(b.deletions, i)), b.deletions[i]);
      }
    case SyncModal =>
      SyncAgrees(b);
    case _ =>
  }

  ghost predicate CapturesBounded(b: Book) {
    forall i :: 0 <= i < |b.deletions| ==> Bounded(b.deletions[i].ordered)
  }

  lemma StepSound(cfg: Config, b: Book, e: Event)
    requires Sound(b)
    ensures Sound(Step(cfg, b, e))
  {
    StepAgrees(cfg, b, e);
    var s := Step(cfg, b, e);
    if (e.DeleteOk? || e.DeleteFailed?) && e.deletion < |b.deletions| {
      assert s.deletions == RemoveAt(b.deletions, e.deletion);
    } else {
      assert s.deletions == b.deletions || s.deletions == b.deletions + [Deletion(e.id, b.ordered, b.local)];
    }
  }

  lemma {:induction false} RunSound(cfg: Config, es: seq<Event>)
    ensures Sound(Run(cfg, es))
  {
    if es == [] {
    } else {
      RunSound(cfg, DropLast(es));
      StepSound(cfg, Run(cfg, DropLast(es)), Last(es));
    }
  }

  /** A delete that captured the current lists takes the one order of its id out of both, leaving
      the others in place, before the modal's effect has run. */
  lemma DeleteTakesOne(b: Book, d: Deletion, before: seq<Order>, o: Order, after: seq<Order>)
    requires Agreed(b) && !b.syncDue && d.ordered == b.ordered && d.local == b.local
    requires b.ordered == before + [o] + after && o.id == d.id
    requires forall p :: p in before || p in after ==> p.id != d.id
    ensures Deleted(b, d).ordered == before + after
    ensures Deleted(b, d).local == before + after
    ensures Deleted(b, d).selectedMap == b.selectedMap - {o.date}
  {
    FilterAll(HasOrderId(), b.ordered);
    OneTaken(before, o, after);
  }

  lemma OneTaken(before: seq<Order>, o: Order, after: seq<Order>)
    requires forall p :: p in before || p in after ==> p.id != o.id
    ensures Without(before + [o] + after, o.id) == before + after
    ensures FindOrder(before + [o] + after, o.id) == Some(o)
  {
    WithoutOne(before, o, after);
    FindBehind(before, o, after);
    assert before + [o] + after == before + ([o] + after);
  }

  lemma WithoutOne(before: seq<Order>, o: Order, after: seq<Order>)
    requires forall p :: p in before || p in after ==> p.id != o.id
    ensures Without(before + [o] + after, o.id) == before + after
  {
    var other := OtherThan(o.id);
    FilterAppend(other, before + [o], after);
    FilterAll(other, before);
    FilterAll(other, after);
    assert DropLast(before + [o]) == before;
  }

  lemma {:induction false} FindBehind(before: seq<Order>, o: Order, after: seq<Order>)
    requires forall p :: p in before ==> p.id != o.id
    ensures FindOrder(before + ([o] + after), o.id) == Some(o)
  {
    var os := before + ([o] + after);
    if before == [] {
    } else {
      assert os[0] == before[0] && os[1..] == before[1..] + ([o] + after);
      assert before[0] in before;
      FindBehind(before[1..], o, after);
    }
  }

  // ---------------------------------------------------------------- what each event does

  /** A press goes out exactly for a day that is one of the 30 from today, neither Sunday nor Saturday
      nor a holiday, and has no order yet; nothing else changes. */
  lemma PressGoesOutIff(cfg: Config, b: Book, date: int, shift: string)
    ensures Step(cfg, b, PressShift(date, shift)) ==
      if cfg.today <= date < cfg.today + 30 && date % 7 != 0 && date % 7 != 6 && date !in cfg.dayOffs
         && forall i :: 0 <= i < |b.orderedDates| ==> b.orderedDates[i].date != date
      then b.(presses := b.presses + [DateShift(date, shift)])
      else b
  {
  }

  /** A placement that succeeds selects its day's shift and, below 100 orders, appends the order, not
      picked, under the server's id or else the time. */
  lemma PlacementSucceeds(cfg: Config, b: Book, i: nat, serverId: Option<int>, now: Clock)
    requires Agreed(b) && i < |b.presses|
    ensures var s, p := Step(cfg, b, PlaceOk(i, serverId, now)), b.presses[i];
      && s.selectedMap == b.selectedMap[p.date := p.shift] && s.picked == b.picked && s.local == b.local
      && s.presses == b.presses[..i] + b.presses[i + 1..] && s.deletions == b.deletions
      && s.ordered == b.ordered +
           if |b.ordered| == 100 then []
           else [Order(if serverId in {None, Some(0)} then now else serverId.value, p.date, p.shift, false)]
  {
    CappedAppend(b.ordered, Order(NewId(serverId, now), b.presses[i].date, b.presses[i].shift, false));
    assert b.ordered + [] == b.ordered;
  }

  lemma {:induction false} ValidItemsAppend(a: seq<Option<Order>>, b: seq<Option<Order>>)
    ensures ValidItems(a + b) == ValidItems(a) + ValidItems(b)
  {
    if b == [] {
      assert a + b == a;
    } else {
      assert DropLast(a + b) == a + DropLast(b);
      ValidItemsAppend(a, DropLast(b));
    }
  }

  lemma ValidItem(item: Option<Order>)
    ensures ValidItems([item]) == if item.Some? && item.value.id != 0 then [item.value] else []
  {
    assert DropLast([item]) == [] && ValidItems([]) == [];
  }

  /** A load keeps the first 100 orders of the answer that exist and have an id, in its order; a failed
      one empties the list; neither touches the selection or the requests in flight. */
  lemma LoadSets(cfg: Config, b: Book, items: seq<Option<Order>>)
    ensures var s := Step(cfg, b, LoadOk(items));
      && s.ordered <= ValidItems(items)
      && |s.ordered| == (if |ValidItems(items)| <= 100 then |ValidItems(items)| else 100)
      && s == b.(ordered := s.ordered, orderedDates := s.orderedDates, picked := s.picked, syncDue := true)
    ensures Step(cfg, b, LoadFailed) == b.(ordered := [], orderedDates := [], picked := 0, syncDue := true)
  {
    assert Image([]) == [];
  }

  /** An answer without data changes nothing; a failed placement or delete only ends its request. */
  lemma FailureChangesNothing(cfg: Config, b: Book, i: nat)
    ensures Step(cfg, b, LoadWithoutData) == b
    ensures i < |b.presses| ==>
      Step(cfg, b, PlaceFailed(i)) == b.(presses := b.presses[..i] + b.presses[i + 1..])
    ensures i < |b.deletions| ==>
      Step(cfg, b, DeleteFailed(i)) == b.(deletions := b.deletions[..i] + b.deletions[i + 1..])
  {
  }

  /** A delete goes out, with the lists its handlers see, exactly for a shown order of that id that is
      neither past nor picked. */
  lemma DeleteGoesOutIff(cfg: Config, b: Book, id: int)
    ensures Step(cfg, b, PressDelete(id)) ==
      if id != 0 && exists o :: o in b.local && o.id == id && cfg.today <= o.date && !o.isPicked
      then b.(deletions := b.deletions + [Deletion(id, b.ordered, b.local)])
      else b
  {
    if id != 0 && exists o :: o in b.local && o.id == id && cfg.today <= o.date && !o.isPicked {
      var o :| o in b.local && o.id == id && cfg.today <= o.date && !o.isPicked;
      var i :| 0 <= i < |b.local| && b.local[i] == o;
      assert CanDelete(cfg, b.local[i]);
    }
  }

  lemma WithoutMembers(os: seq<Order>, id: int)
    ensures forall o :: o in Without(os, id) <==> o in os && o.id != id
    ensures forall o :: o in Without(WithId(os), id) <==> o in os && o.id != 0 && o.id != id
  {
    FilterMembers(OtherThan(id), os);
    FilterMembers(HasOrderId(), os);
    FilterMembers(OtherThan(id), WithId(os));
  }

  /** A delete that succeeds leaves, of the lists it captured, the orders of other ids in both copies. */
  lemma DeleteKeepsOthers(cfg: Config, b: Book, i: nat)
    requires i < |b.deletions|
    ensures var s, d := Step(cfg, b, DeleteOk(i)), b.deletions[i];
      && (forall o :: o in s.ordered <==> o in d.ordered && o.id != d.id)
      && (forall o :: o in s.local <==> o in d.local && o.id != 0 && o.id != d.id)
      && s.presses == b.presses && s.deletions == b.deletions[..i] + b.deletions[i + 1..]
  {
    var d := b.deletions[i];
    WithoutMembers(d.ordered, d.id);
    WithoutMembers(d.local, d.id);
    assert Step(cfg, b, DeleteOk(i)) == Deleted(b.(deletions := RemoveAt(b.deletions, i)), d);
  }

  /** The modal's effect copies the list once. */
  lemma SyncCopies(cfg: Config, b: Book)
    requires Agreed(b)
    ensures var s := Step(cfg, b, SyncModal);
      !s.syncDue && s.local == b.ordered && s == b.(local := s.local, syncDue := false)
  {
    FilterAll(HasOrderId(), b.ordered);
  }

  /** In every run, however requests overlap and whatever state their handlers captured, the copies
      agree: lost updates are lost from all of them alike. */
  lemma CopiesAgree(cfg: Config, es: seq<Event>)
    ensures Agreed(Run(cfg, es)) && |Run(cfg, es).ordered| <= 100
  {
    RunSound(cfg, es);
  }

  // ---------------------------------------------------------------- orderly runs

  /** Requests are serialised as far as they touch: presses in flight are for different days, a
      delete is alone in flight, and nothing is loaded again. */
  ghost predicate Disciplined(b: Book, e: Event) {
    match e
    case LoadOk(_) => false
    case LoadWithoutData => false
    case LoadFailed => false
    case PressShift(date, _) => b.deletions == [] && forall i :: 0 <= i < |b.presses| ==> b.presses[i].date != date
    case PressDelete(_) => b.presses == [] && b.deletions == []
    case _ => true
  }

  /** A load followed by disciplined events. */
  ghost predicate OrderlyRun(cfg: Config, es: seq<Event>) {
    && es != []
    && if |es| == 1 then es[0].LoadOk?
       else OrderlyRun(cfg, DropLast(es)) && Disciplined(Run(cfg, DropLast(es)), Last(es))
  }

  function Loaded(es: seq<Event>): seq<Order>
    requires es != [] && es[0].LoadOk?
  {
    Take(ValidItems(es[0].items), CAP)
  }

  lemma {:induction false} OrderlyStartsLoaded(cfg: Config, es: seq<Event>)
    requires OrderlyRun(cfg, es)
    ensures es[0].LoadOk?
  {
    if |es| == 1 {
    } else {
      OrderlyStartsLoaded(cfg, DropLast(es));
    }
  }

  /** The first `k` orders were loaded; the others were placed here, each on an orderable day on
      which no other order of the list falls. */
  ghost predicate ListAt(cfg: Config, loaded: seq<Order>, os: seq<Order>, k: nat) {
    && k <= |os| && k <= |loaded|
    && (forall i :: 0 <= i < k ==> os[i] in loaded)
    && (forall j :: k <= j < |os| ==> cfg.CanOrder(os[j].date))
    && (forall i, j :: 0 <= i < j < |os| && k <= j ==> os[i].date != os[j].date)
  }

  /** Pending presses are for orderable days, all different and free. */
  ghost predicate PressesFree(cfg: Config, b: Book) {
    && (forall i :: 0 <= i < |b.presses| ==> cfg.CanOrder(b.presses[i].date))
    && (forall i, j :: 0 <= i < j < |b.presses| ==> b.presses[i].date != b.presses[j].date)
    && (forall i, j :: 0 <= i < |b.presses| && 0 <= j < |b.ordered| ==> b.presses[i].date != b.ordered[j].date)
  }

  /** A delete in flight is alone and has captured the current list. */
  ghost predicate DeleteAlone(b: Book) {
    b.deletions == [] || (|b.deletions| == 1 && b.presses == [] && b.deletions[0].ordered == b.ordered)
  }

  ghost predicate Orderly(cfg: Config, loaded: seq<Order>, b: Book, k: nat) {
    Agreed(b) && ListAt(cfg, loaded, b.ordered, k) && PressesFree(cfg, b) && DeleteAlone(b)
  }

  lemma {:induction false} WithoutListAt(cfg: Config, loaded: seq<Order>, os: seq<Order>, k: nat, id: int)
    returns (l: nat)
    requires ListAt(cfg, loaded, os, k)
    ensures l <= k && ListAt(cfg, loaded, Without(os, id), l)
  {
    FilterMembers(OtherThan(id), os);
    if |os| == k {
      l := |Without(os, id)|;
      forall i | 0 <= i < l ensures Without(os, id)[i] in loaded {
        assert Without(os, id)[i] in os;
      }
    } else {
      var front, o := DropLast(os), Last(os);
      l := WithoutListAt(cfg, loaded, front, k, id);
      FilterMembers(OtherThan(id), front);
      var r := Without(front, id);
      forall i | 0 <= i < |r| ensures r[i].date != o.date {
        assert r[i] in front;
      }
    }
  }

  lemma PressOrderly(cfg: Config, loaded: seq<Order>, b: Book, k: nat, date: int, shift: string)
    requires Orderly(cfg, loaded, b, k) && Disciplined(b, PressShift(date, shift))
    ensures Orderly(cfg, loaded, Step(cfg, b, PressShift(date, shift)), k)
  {
    assert !ButtonDisabled(b, date) ==> forall j :: 0 <= j < |b.ordered| ==> b.orderedDates[j].date != date;
  }

  lemma ListAtSnoc(cfg: Config, loaded: seq<Order>, os: seq<Order>, k: nat, o: Order)
    requires ListAt(cfg, loaded, os, k) && cfg.CanOrder(o.date)
    requires forall i :: 0 <= i < |os| ==> os[i].date != o.date
    ensures ListAt(cfg, loaded, os + [o], k)
  {
  }

  lemma PressesFreeSnoc(cfg: Config, b: Book, os: seq<Order>, o: Order)
    requires PressesFree(cfg, b) && os == b.ordered + [o]
    requires forall i :: 0 <= i < |b.presses| ==> b.presses[i].date != o.date
    ensures PressesFree(cfg, b.(ordered := os))
  {
  }

  lemma PlaceOrderly(cfg: Config, loaded: seq<Order>, b: Book, k: nat, i: nat, id: int)
    requires Orderly(cfg, loaded, b, k) && i < |b.presses| && id != 0
    ensures Orderly(cfg, loaded, Placed(b.(presses := RemoveAt(b.presses, i)), b.presses[i], id), k)
  {
    var p := b.presses[i];
    var rest := b.(presses := RemoveAt(b.presses, i));
    var o := Order(id, p.date, p.shift, false);
    var s := Placed(rest, p, id);
    PlacedAgrees(rest, p, id);
    RemainingPresses(cfg, b, i);
    ListAtSnoc(cfg, loaded, b.ordered, k, o);
    PressesFreeSnoc(cfg, rest, b.ordered + [o], o);
    if |b.ordered| == CAP {
      assert s.ordered == b.ordered;
    } else {
      assert s.ordered == b.ordered + [o];
    }
  }

  lemma RemainingPresses(cfg: Config, b: Book, i: nat)
    requires PressesFree(cfg, b) && i < |b.presses|
    ensures PressesFree(cfg, b.(presses := RemoveAt(b.presses, i)))
    ensures forall j :: 0 <= j < |b.presses| - 1 ==> RemoveAt(b.presses, i)[j].date != b.presses[i].date
  {
    var r := RemoveAt(b.presses, i);
    assert forall j :: 0 <= j < |r| ==> r[j] == b.presses[if j < i then j else j + 1];
  }

  lemma DeleteOrderly(cfg: Config, loaded: seq<Order>, b: Book, k: nat) returns (l: nat)
    requires Orderly(cfg, loaded, b, k) && |b.deletions| == 1
    ensures Orderly(cfg, loaded, Deleted(b.(deletions := []), b.deletions[0]), l)
  {
    var d := b.deletions[0];
    l := WithoutListAt(cfg, loaded, b.ordered, k, d.id);
    WithoutBounded(b.ordered, d.id);
  }

  lemma StepOrderly(cfg: Config, loaded: seq<Order>, b: Book, k: nat, e: Event) returns (l: nat)
    requires Orderly(cfg, loaded, b, k) && Disciplined(b, e)
    ensures Orderly(cfg, loaded, Step(cfg, b, e), l)
  {
    l := k;
    match e
    case PressShift(date, shift) =>
      PressOrderly(cfg, loaded, b, k, date, shift);
    case PlaceOk(i, serverId, now) =>
      if i < |b.presses| {
        PlaceOrderly(cfg, loaded, b, k, i, NewId(serverId, now));
      }
    case PlaceFailed(i) =>
      if i < |b.presses| {
        RemainingPresses(cfg, b, i);
      }
    case DeleteOk(i) =>
      if i < |b.deletions| {
        assert RemoveAt(b.deletions, i) == [];
        l := DeleteOrderly(cfg, loaded, b, k);
      }
    case DeleteFailed(i) =>
    case PressDelete(_) =>
    case SyncModal =>
      FilterAll(HasOrderId(), b.ordered);
    case _ =>
  }

  lemma {:induction false} RunOrderly(cfg: Config, es: seq<Event>) returns (k: nat)
    requires OrderlyRun(cfg, es)
    ensures es[0].LoadOk? && Orderly(cfg, Loaded(es), Run(cfg, es), k)
  {
    OrderlyStartsLoaded(cfg, es);
    if |es| == 1 {
      k := |Loaded(es)|;
      RunSound(cfg, es);
      assert DropLast(es) == [];
    } else {
      var front := RunOrderly(cfg, DropLast(es));
      k := StepOrderly(cfg, Loaded(es), Run(cfg, DropLast(es)), front, Last(es));
    }
  }

  /** Placed and pending orders together are at most 22. */
  lemma AtMost22(cfg: Config, loaded: seq<Order>, b: Book, k: nat)
    requires Orderly(cfg, loaded, b, k)
    ensures |b.ordered| - k + |b.presses| <= 22
  {
    var m := |b.ordered| - k;
    var days := seq(m + |b.presses|, i requires 0 <= i < m + |b.presses| =>
      if i < m then b.ordered[k + i].date else b.presses[i - m].date);
    OrderableDays(cfg, days);
  }

  /** On orderly runs the list consists of loaded orders followed by orders placed here; the latter
      lie on orderable days, no two orders share such a day, and they are at most 22. */
  lemma OneOrderPerDay(cfg: Config, es: seq<Event>) returns (k: nat)
    requires OrderlyRun(cfg, es)
    ensures es[0].LoadOk? && ListAt(cfg, Loaded(es), Run(cfg, es).ordered, k)
    ensures forall j :: k <= j < |Run(cfg, es).ordered| ==>
      var day := Run(cfg, es).ordered[j].date;
      cfg.today <= day < cfg.today + 30 && day % 7 != 0 && day % 7 != 6 && day !in cfg.dayOffs
    ensures |Run(cfg, es).ordered| <= |Loaded(es)| + 22
  {
    k := RunOrderly(cfg, es);
    AtMost22(cfg, Loaded(es), Run(cfg, es), k);
  }

  lemma RoomToPlace(cfg: Config, loaded: seq<Order>, b: Book, k: nat, i: nat, serverId: Option<int>, now: Clock)
    requires Orderly(cfg, loaded, b, k) && |loaded| <= 78 && i < |b.presses|
    ensures var p := b.presses[i];
      Step(cfg, b, PlaceOk(i, serverId, now)).ordered
      == b.ordered + [Order(NewId(serverId, now), p.date, p.shift, false)]
  {
    AtMost22(cfg, loaded, b, k);
  }

  /** With at most 78 orders loaded the cap never drops an order. */
  lemma CapNeverDrops(cfg: Config, es: seq<Event>, i: nat, serverId: Option<int>, now: Clock)
    requires OrderlyRun(cfg, es) && es[0].LoadOk? && |Loaded(es)| <= 78
    requires i < |Run(cfg, es).presses|
    ensures var b := Run(cfg, es); var p := b.presses[i];
      Step(cfg, b, PlaceOk(i, serverId, now)).ordered
      == b.ordered + [Order(NewId(serverId, now), p.date, p.shift, false)]
  {
    var k := RunOrderly(cfg, es);
    RoomToPlace(cfg, Loaded(es), Run(cfg, es), k, i, serverId, now);
  }

  // ---------------------------------------------------------------- the selection map

  /** The map selects only what the list holds. */
  ghost predicate Backed(b: Book) {
    forall date :: date in b.selectedMap ==> DateShift(date, b.selectedMap[date]) in b.orderedDates
  }

  ghost predicate IdsDistinct(os: seq<Order>) {
    forall i, j :: 0 <= i < j < |os| ==> os[i].id != os[j].id
  }

  lemma WithoutIdsDistinct(os: seq<Order>, id: int)
    requires IdsDistinct(os)
    ensures IdsDistinct(Without(os, id))
  {
    FilterPairwise(OtherThan(id), os, (o: Order, p: Order) => o.id != p.id);
  }

  lemma {:induction false} FoundOrder(os: seq<Order>, id: int)
    ensures FindOrder(os, id).Some? ==> FindOrder(os, id).value in os && FindOrder(os, id).value.id == id
    ensures FindOrder(os, id).None? ==> forall o :: o in os ==> o.id != id
  {
    if os == [] {
    } else {
      FoundOrder(os[1..], id);
      assert os == [os[0]] + os[1..];
    }
  }

  lemma ImageMember(os: seq<Order>, o: Order)
    requires o in os
    ensures DateShift(o.date, o.shift) in Image(os)
  {
    var i :| 0 <= i < |os| && os[i] == o;
    assert Image(os)[i] == DateShift(o.date, o.shift);
  }

  lemma IdNamesOrder(os: seq<Order>, o: Order, p: Order)
    requires IdsDistinct(os) && o in os && p in os && o != p
    ensures o.id != p.id
  {
    var i :| 0 <= i < |os| && os[i] == o;
    var j :| 0 <= j < |os| && os[j] == p;
  }

  /** An order on another day than the deleted one is not the deleted one. */
  lemma OtherDayOtherId(os: seq<Order>, id: int, o: Order)
    requires IdsDistinct(os) && o in os && Some(o.date) != DayOf(FindOrder(os, id))
    ensures o.id != id
  {
    FoundOrder(os, id);
    if FindOrder(os, id).Some? {
      IdNamesOrder(os, o, FindOrder(os, id).value);
    }
  }

  /** Some order of that day and shift has another id. */
  ghost predicate OtherOrderFor(os: seq<Order>, id: int, date: int, shift: string) {
    exists i :: 0 <= i < |os| && os[i].date == date && os[i].shift == shift && os[i].id != id
  }

  /** A delete, whatever list it captured, leaves the map backed exactly when for every selected day
      but the deleted order's the captured list holds the order selected, under another id. */
  lemma DeletedBackedIff(b: Book, d: Deletion)
    ensures Backed(Deleted(b, d)) <==>
      forall date :: date in b.selectedMap && Some(date) != DayOf(FindOrder(d.ordered, d.id)) ==>
        OtherOrderFor(d.ordered, d.id, date, b.selectedMap[date])
  {
    var s := Deleted(b, d);
    forall date | date in s.selectedMap
      ensures DateShift(date, s.selectedMap[date]) in s.orderedDates
         <==> OtherOrderFor(d.ordered, d.id, date, b.selectedMap[date])
    {
      KeptOrderFor(d.ordered, d.id, date, s.selectedMap[date]);
    }
    assert forall date :: date in s.selectedMap <==>
      date in b.selectedMap && Some(date) != DayOf(FindOrder(d.ordered, d.id));
  }

  function DayOf(o: Option<Order>): Option<int> {
    if o.Some? then Some(o.value.date) else None
  }

  lemma KeptOrderFor(os: seq<Order>, id: int, date: int, shift: string)
    ensures DateShift(date, shift) in Image(Without(os, id)) <==> OtherOrderFor(os, id, date, shift)
  {
    var kept := Without(os, id);
    FilterMembers(OtherThan(id), os);
    if DateShift(date, shift) in Image(kept) {
      var i :| 0 <= i < |kept| && Image(kept)[i] == DateShift(date, shift);
      assert kept[i] in os;
      var j :| 0 <= j < |os| && os[j] == kept[i];
      assert OtherThan(id)(os[j]);
    }
    if OtherOrderFor(os, id, date, shift) {
      var i :| 0 <= i < |os| && os[i].date == date && os[i].shift == shift && os[i].id != id;
      assert os[i] in kept;
      ImageMember(kept, os[i]);
    }
  }

  /** So one that captured the current list does: only the deleted order's day could lose its order,
      and that day is removed from the map. */
  lemma DeletedBacked(b: Book, d: Deletion)
    requires Agreed(b) && Backed(b) && IdsDistinct(b.ordered) && d.ordered == b.ordered
    ensures Backed(Deleted(b, d))
  {
    DeletedBackedIff(b, d);
    forall date | date in b.selectedMap && Some(date) != DayOf(FindOrder(d.ordered, d.id))
      ensures OtherOrderFor(d.ordered, d.id, date, b.selectedMap[date])
    {
      assert DateShift(date, b.selectedMap[date]) in b.orderedDates;
      var i :| 0 <= i < |b.orderedDates| && b.orderedDates[i] == DateShift(date, b.selectedMap[date]);
      OtherDayOtherId(b.ordered, d.id, b.ordered[i]);
    }
  }

  /** Placing an order on a free day keeps the map backed exactly when the list has room. */
  lemma PlacedBackedIff(b: Book, p: DateShift, id: int)
    requires Agreed(b) && Backed(b) && !ButtonDisabled(b, p.date)
    ensures Backed(Placed(b, p, id)) <==> |b.ordered| < CAP
  {
    var s := Placed(b, p, id);
    assert forall i :: 0 <= i < |b.orderedDates| ==> b.orderedDates[i].date != p.date;
    if |b.ordered| < CAP {
      assert s.orderedDates == b.orderedDates + [p];
      forall date | date in s.selectedMap ensures DateShift(date, s.selectedMap[date]) in s.orderedDates {
        assert date != p.date ==> DateShift(date, b.selectedMap[date]) in b.orderedDates;
        assert s.orderedDates[|b.orderedDates|] == p;
      }
    } else {
      assert s.orderedDates == b.orderedDates;
      assert p.date in s.selectedMap && DateShift(p.date, s.selectedMap[p.date]) == p;
    }
  }

  /** A placement finds room in the list. */
  ghost predicate FindsRoom(b: Book, e: Event) {
    e.PlaceOk? && e.press < |b.presses| ==> |b.ordered| < CAP
  }

  /** A placed order gets an id no held order has. */
  ghost predicate GetsNewId(b: Book, e: Event) {
    e.PlaceOk? ==> forall i :: 0 <= i < |b.ordered| ==> b.ordered[i].id != NewId(e.serverId, e.now)
  }

  ghost predicate RoomThroughout(cfg: Config, es: seq<Event>) {
    es == [] || (RoomThroughout(cfg, DropLast(es)) && FindsRoom(Run(cfg, DropLast(es)), Last(es)))
  }

  ghost predicate NewIdsThroughout(cfg: Config, es: seq<Event>) {
    es == [] || (NewIdsThroughout(cfg, DropLast(es)) && GetsNewId(Run(cfg, DropLast(es)), Last(es)))
  }

  lemma StepBacked(cfg: Config, loaded: seq<Order>, b: Book, k: nat, e: Event)
    requires Orderly(cfg, loaded, b, k) && Disciplined(b, e) && FindsRoom(b, e) && GetsNewId(b, e)
    requires Backed(b) && IdsDistinct(b.ordered)
    ensures Backed(Step(cfg, b, e)) && IdsDistinct(Step(cfg, b, e).ordered)
  {
    match e
    case PlaceOk(i, serverId, now) =>
      if i < |b.presses| {
        PlacedBackedIff(b.(presses := RemoveAt(b.presses, i)), b.presses[i], NewId(serverId, now));
      }
    case DeleteOk(i) =>
      if i < |b.deletions| {
        DeletedBacked(b.(deletions := RemoveAt(b.deletions, i)), b.deletions[i]);
        WithoutIdsDistinct(b.ordered, b.deletions[i].id);
      }
    case _ =>
  }

  lemma {:induction false} RunBacked(cfg: Config, es: seq<Event>)
    requires OrderlyRun(cfg, es) && es[0].LoadOk? && IdsDistinct(Loaded(es))
    requires RoomThroughout(cfg, es) && NewIdsThroughout(cfg, es)
    ensures Backed(Run(cfg, es)) && IdsDistinct(Run(cfg, es).ordered)
  {
    if |es| == 1 {
      assert DropLast(es) == [];
    } else {
      RunBacked(cfg, DropLast(es));
      var k := RunOrderly(cfg, DropLast(es));
      StepBacked(cfg, Loaded(es), Run(cfg, DropLast(es)), k, Last(es));
    }
  }

  /** With at most 78 orders loaded there is always room. */
  lemma {:induction false} RoomBelow78(cfg: Config, es: seq<Event>)
    requires OrderlyRun(cfg, es) && es[0].LoadOk? && |Loaded(es)| <= 78
    ensures RoomThroughout(cfg, es)
  {
    if |es| == 1 {
      assert DropLast(es) == [];
    } else {
      RoomBelow78(cfg, DropLast(es));
      var k := RunOrderly(cfg, DropLast(es));
      AtMost22(cfg, Loaded(es), Run(cfg, DropLast(es)), k);
    }
  }

  /** The list holds an order for that day and shift. */
  ghost predicate HasOrder(os: seq<Order>, date: int, shift: string) {
    exists i :: 0 <= i < |os| && os[i].date == date && os[i].shift == shift
  }

  /** On orderly runs in which every placement finds room the selection map is redundant: a shift is
      shown as selected exactly when the list holds it. */
  lemma SelectedIffOrdered(cfg: Config, es: seq<Event>, date: int, shift: string)
    requires OrderlyRun(cfg, es) && es[0].LoadOk? && IdsDistinct(Loaded(es))
    requires RoomThroughout(cfg, es) && NewIdsThroughout(cfg, es)
    ensures ShiftSelected(Run(cfg, es), date, shift) <==> HasOrder(Run(cfg, es).ordered, date, shift)
  {
    var b := Run(cfg, es);
    RunBacked(cfg, es);
    CopiesAgree(cfg, es);
    if HasOrder(b.ordered, date, shift) {
      var i :| 0 <= i < |b.ordered| && b.ordered[i].date == date && b.ordered[i].shift == shift;
      assert b.orderedDates[i] == DateShift(date, shift);
    }
    if ShiftSelected(b, date, shift) {
      assert CheckOrdered(b, date, shift);
      var i :| 0 <= i < |b.orderedDates| && b.orderedDates[i] == DateShift(date, shift);
      assert b.ordered[i].date == date && b.ordered[i].shift == shift;
    }
  }

  /** In particular with at most 78 orders loaded. */
  lemma SelectedIffOrderedBelow78(cfg: Config, es: seq<Event>, date: int, shift: string)
    requires OrderlyRun(cfg, es) && es[0].LoadOk? && IdsDistinct(Loaded(es))
    requires |Loaded(es)| <= 78 && NewIdsThroughout(cfg, es)
    ensures ShiftSelected(Run(cfg, es), date, shift) <==> HasOrder(Run(cfg, es).ordered, date, shift)
  {
    RoomBelow78(cfg, es);
    SelectedIffOrdered(cfg, es, date, shift);
  }

  // ---------------------------------------------------------------- one order per day

  lemma ListAtSnocIff(cfg: Config, loaded: seq<Order>, os: seq<Order>, k: nat, o: Order)
    requires cfg.CanOrder(o.date) && k <= |os|
    ensures ListAt(cfg, loaded, os + [o], k)
       <==> ListAt(cfg, loaded, os, k) && forall i :: 0 <= i < |os| ==> os[i].date != o.date
  {
    var t := os + [o];
    if ListAt(cfg, loaded, t, k) {
      forall i | 0 <= i < |os| ensures os[i].date != o.date {
        assert t[i].date != t[|os|].date;
      }
      assert forall i :: 0 <= i < |os| ==> t[i] == os[i];
    }
  }

  /** Below the cap a placement keeps the placed orders alone on their days exactly when the day's
      buttons are not disabled when its answer arrives. */
  lemma PlacedOnePerDayIff(cfg: Config, loaded: seq<Order>, b: Book, k: nat, p: DateShift, id: int)
    requires Agreed(b) && |b.ordered| < CAP && cfg.CanOrder(p.date) && ListAt(cfg, loaded, b.ordered, k)
    ensures ListAt(cfg, loaded, Placed(b, p, id).ordered, k) <==> !ButtonDisabled(b, p.date)
  {
    ListAtSnocIff(cfg, loaded, b.ordered, k, Order(id, p.date, p.shift, false));
    assert ButtonDisabled(b, p.date) <==> exists i :: 0 <= i < |b.ordered| && b.orderedDates[i].date == p.date;
  }

  /** What is placed is alone on its day, and what is pressed will be. */
  ghost predicate OnePerDay(cfg: Config, loaded: seq<Order>, b: Book, k: nat) {
    ListAt(cfg, loaded, b.ordered, k) && PressesFree(cfg, b)
  }

  /** Presses are for orderable days and all find room. */
  ghost predicate Placeable(cfg: Config, b: Book) {
    |b.ordered| + |b.presses| <= CAP && forall i :: 0 <= i < |b.presses| ==> cfg.CanOrder(b.presses[i].date)
  }

  lemma PressesFreeIff(cfg: Config, b: Book, i: nat, o: Order)
    requires i < |b.presses| && o.date == b.presses[i].date && Placeable(cfg, b)
    ensures PressesFree(cfg, b) <==>
      && PressesFree(cfg, b.(presses := RemoveAt(b.presses, i), ordered := b.ordered + [o]))
      && forall j :: 0 <= j < |b.ordered| ==> b.ordered[j].date != o.date
  {
    var c := b.(presses := RemoveAt(b.presses, i), ordered := b.ordered + [o]);
    if PressesFree(cfg, b) {
      RemainingPresses(cfg, b, i);
      PressesFreeSnoc(cfg, b.(presses := c.presses), c.ordered, o);
    } else if PressesFree(cfg, c) && forall j :: 0 <= j < |b.ordered| ==> b.ordered[j].date != o.date {
      PressesFreeBack(cfg, b, i, o);
    }
  }

  lemma PressesFreeBack(cfg: Config, b: Book, i: nat, o: Order)
    requires i < |b.presses| && o.date == b.presses[i].date && Placeable(cfg, b)
    requires PressesFree(cfg, b.(presses := RemoveAt(b.presses, i), ordered := b.ordered + [o]))
    requires forall j :: 0 <= j < |b.ordered| ==> b.ordered[j].date != o.date
    ensures PressesFree(cfg, b)
  {
    var c := b.(presses := RemoveAt(b.presses, i), ordered := b.ordered + [o]);
    forall j | 0 <= j < |b.presses| && j != i
      ensures b.presses[j].date != o.date && forall l :: 0 <= l < |b.ordered| ==> b.presses[j].date != b.ordered[l].date
    {
      var j' := if j < i then j else j - 1;
      assert c.presses[j'] == b.presses[j];
      assert c.presses[j'].date != c.ordered[|b.ordered|].date;
      forall l | 0 <= l < |b.ordered| ensures b.presses[j].date != b.ordered[l].date {
        assert c.ordered[l] == b.ordered[l];
      }
    }
    forall j, l | 0 <= j < l < |b.presses| ensures b.presses[j].date != b.presses[l].date {
      if j != i && l != i {
        var j', l' := if j < i then j else j - 1, if l < i then l else l - 1;
        assert c.presses[j'] == b.presses[j] && c.presses[l'] == b.presses[l];
      }
    }
  }

  lemma AnswerOnePerDayIff(cfg: Config, loaded: seq<Order>, b: Book, k: nat, i: nat, serverId: Option<int>, now: Clock)
    requires Placeable(cfg, b) && i < |b.presses| && k <= |b.ordered|
    ensures var s := Step(cfg, b, PlaceOk(i, serverId, now));
      && Placeable(cfg, s) && |s.presses| == |b.presses| - 1 && |s.ordered| == |b.ordered| + 1
      && (OnePerDay(cfg, loaded, s, k) <==> OnePerDay(cfg, loaded, b, k))
  {
    var p := b.presses[i];
    var o := Order(NewId(serverId, now), p.date, p.shift, false);
    var c := b.(presses := RemoveAt(b.presses, i), ordered := b.ordered + [o]);
    var s := Step(cfg, b, PlaceOk(i, serverId, now));
    assert s.ordered == c.ordered && s.presses == c.presses;
    assert PressesFree(cfg, s) <==> PressesFree(cfg, c);
    assert forall j :: 0 <= j < |c.presses| ==> c.presses[j] == b.presses[if j < i then j else j + 1];
    PressesFreeIff(cfg, b, i, o);
    ListAtSnocIff(cfg, loaded, b.ordered, k, o);
  }

  /** The book after the presses in flight have been answered with success, in any order. */
  function Answer(cfg: Config, b: Book, answers: seq<Event>): Book {
    if answers == [] then b else Step(cfg, Answer(cfg, b, DropLast(answers)), Last(answers))
  }

  /** Each answer is to a press then in flight. */
  ghost predicate AnswersPresses(cfg: Config, b: Book, answers: seq<Event>) {
    answers != [] ==>
      && AnswersPresses(cfg, b, DropLast(answers))
      && Last(answers).PlaceOk? && Last(answers).press < |Answer(cfg, b, DropLast(answers)).presses|
  }

  lemma {:induction false} AnswersKeepOnePerDayIff(
    cfg: Config, loaded: seq<Order>, b: Book, k: nat, answers: seq<Event>)
    requires Placeable(cfg, b) && k <= |b.ordered| && AnswersPresses(cfg, b, answers)
    ensures var s := Answer(cfg, b, answers);
      && Placeable(cfg, s) && k <= |s.ordered| && (OnePerDay(cfg, loaded, s, k) <==> OnePerDay(cfg, loaded, b, k))
  {
    if answers == [] {
    } else {
      var e := Last(answers);
      AnswersKeepOnePerDayIff(cfg, loaded, b, k, DropLast(answers));
      AnswerOnePerDayIff(cfg, loaded, Answer(cfg, b, DropLast(answers)), k, e.press, e.serverId, e.now);
    }
  }

  /** Once all presses in flight are answered, in whatever order, every placed order is alone on its
      day exactly when the days pressed were all different and free. */
  lemma AllAnsweredOnePerDayIff(cfg: Config, loaded: seq<Order>, b: Book, k: nat, answers: seq<Event>)
    requires Placeable(cfg, b) && ListAt(cfg, loaded, b.ordered, k)
    requires AnswersPresses(cfg, b, answers) && Answer(cfg, b, answers).presses == []
    ensures ListAt(cfg, loaded, Answer(cfg, b, answers).ordered, k) <==>
      && (forall i, j :: 0 <= i < j < |b.presses| ==> b.presses[i].date != b.presses[j].date)
      && (forall i, j :: 0 <= i < |b.presses| && 0 <= j < |b.ordered| ==> b.presses[i].date != b.ordered[j].date)
  {
    AnswersKeepOnePerDayIff(cfg, loaded, b, k, answers);
  }

  // ---------------------------------------------------------------- the discipline is needed

  lemma TwoAnswers(cfg: Config, b: Book, p: DateShift, q: DateShift)
    requires b.ordered == [] && b.presses == [p, q]
    ensures var s := Step(cfg, Step(cfg, b, PlaceOk(0, Some(1), 1)), PlaceOk(0, Some(2), 1));
      s.ordered == [Order(1, p.date, p.shift, false), Order(2, q.date, q.shift, false)]
  {
    assert RemoveAt([p, q], 0) == [q];
  }

  /** Both shift buttons of a day pressed before the first answer: two orders on that day. */
  lemma TwoPressesOneDay(cfg: Config, date: int) returns (es: seq<Event>)
    requires cfg.CanOrder(date)
    ensures Run(cfg, es).ordered == [Order(1, date, "DAY", false), Order(2, date, "NIGHT", false)]
  {
    var e1 := [PressShift(date, "DAY")];
    var e2 := e1 + [PressShift(date, "NIGHT")];
    var e3 := e2 + [PlaceOk(0, Some(1), 1)];
    es := e3 + [PlaceOk(0, Some(2), 1)];
    assert Run(cfg, []) == INIT;
    assert Run(cfg, e1) == INIT.(presses := [DateShift(date, "DAY")]);
    assert Run(cfg, e2) == INIT.(presses := [DateShift(date, "DAY"), DateShift(date, "NIGHT")]);
    TwoAnswers(cfg, Run(cfg, e2), DateShift(date, "DAY"), DateShift(date, "NIGHT"));
    assert Run(cfg, es) == Step(cfg, Step(cfg, Run(cfg, e2), PlaceOk(0, Some(1), 1)), PlaceOk(0, Some(2), 1));
  }

  /** One loaded order, its delete pressed. */
  lemma DeleteInFlight(cfg: Config, o: Order) returns (es: seq<Event>)
    requires o.id != 0 && CanDelete(cfg, o)
    ensures var b := Run(cfg, es);
      && b.ordered == [o] && b.orderedDates == [DateShift(o.date, o.shift)] && b.selectedMap == map[]
      && b.presses == [] && b.deletions == [Deletion(o.id, [o], [o])]
  {
    es := [LoadOk([Some(o)])] + [SyncModal] + [PressDelete(o.id)];
    RunSnoc(cfg, [], LoadOk([Some(o)]));
    RunSnoc(cfg, [LoadOk([Some(o)])], SyncModal);
    RunSnoc(cfg, [LoadOk([Some(o)])] + [SyncModal], PressDelete(o.id));
    assert [] + [LoadOk([Some(o)])] == [LoadOk([Some(o)])];
    OneLoaded(cfg, o);
    var b := Step(cfg, INIT, LoadOk([Some(o)]));
    SyncOnly(cfg, b, o);
    PressDeleteOnly(cfg, Step(cfg, b, SyncModal), o);
  }

  lemma RunSnoc(cfg: Config, es: seq<Event>, e: Event)
    ensures Run(cfg, es + [e]) == Step(cfg, Run(cfg, es), e)
  {
    assert DropLast(es + [e]) == es;
  }

  lemma SyncOnly(cfg: Config, b: Book, o: Order)
    requires b.ordered == [o] && o.id != 0 && b.syncDue
    ensures Step(cfg, b, SyncModal) == b.(local := [o], syncDue := false)
  {
    FilterAll(HasOrderId(), [o]);
  }

  lemma OneLoaded(cfg: Config, o: Order)
    requires o.id != 0
    ensures var b := Step(cfg, INIT, LoadOk([Some(o)]));
      b == INIT.(ordered := [o], orderedDates := [DateShift(o.date, o.shift)], picked := b.picked)
  {
    assert DropLast([Some(o)]) == [];
    assert ValidItems([Some(o)]) == ValidItems([]) + [o] == [o];
  }

  lemma PressDeleteOnly(cfg: Config, b: Book, o: Order)
    requires b.local == [o] && b.deletions == [] && o.id != 0 && CanDelete(cfg, o)
    ensures Step(cfg, b, PressDelete(o.id)) == b.(deletions := [Deletion(o.id, b.ordered, [o])])
  {
    assert b.local[0].id == o.id;
  }

  /** An order placed while a delete is in flight is lost from the list, yet stays shown. */
  lemma DeleteLosesPlacement(cfg: Config, o: Order, date: int, shift: string) returns (es: seq<Event>)
    requires o.id != 0 && CanDelete(cfg, o) && cfg.CanOrder(date) && o.date != date
    ensures var b := Run(cfg, es);
      b.ordered == [] && ShiftSelected(b, date, shift) && !HasOrder(b.ordered, date, shift)
  {
    var e3 := DeleteInFlight(cfg, o);
    var e4 := e3 + [PressShift(date, shift)];
    var e5 := e4 + [PlaceOk(0, Some(o.id + 1), 1)];
    es := e5 + [DeleteOk(0)];
    assert Run(cfg, e4).presses == [DateShift(date, shift)];
    var b5 := Run(cfg, e5);
    assert b5.deletions == [Deletion(o.id, [o], [o])] && b5.selectedMap == map[date := shift];
    DeleteOnly(b5.(deletions := []), o);
    assert Run(cfg, es) == Deleted(b5.(deletions := []), b5.deletions[0]);
  }

  lemma DeleteOnly(b: Book, o: Order)
    ensures var s := Deleted(b, Deletion(o.id, [o], [o]));
      s.ordered == [] && s.orderedDates == [] && s.selectedMap == b.selectedMap - {o.date}
  {
    assert DropLast([o]) == [];
    assert FindOrder([o], o.id) == Some(o);
    assert Last([o]) == o && !OtherThan(o.id)(o);
    assert Without([o], o.id) == Filter(OtherThan(o.id), []);
  }

  // ---------------------------------------------------------------- the screen

  class OrderScreen {
    const cfg: Config
    var ordered: seq<Order>
    var orderedDates: seq<DateShift>
    var picked: int
    var selectedMap: map<int, string>
    var local: seq<Order>
    var syncDue: bool
    var presses: seq<DateShift>
    var deletions: seq<Deletion>

    function Abs(): Book
      reads this
    {
      Book(ordered, orderedDates, picked, selectedMap, local, syncDue, presses, deletions)
    }

    constructor (cfg: Config)
      ensures this.cfg == cfg && Abs() == INIT
    {
      this.cfg := cfg;
      ordered, orderedDates, picked, selectedMap := [], [], 0, map[];
      local, syncDue, presses, deletions := [], true, [], [];
    }

    /** `getUserOrders`; `failed` is a thrown request, `items` the data of an answer that has any. */
    method GetUserOrders(failed: bool, items: Option<seq<Option<Order>>>)
      modifies this
      ensures Abs() == Step(cfg, old(Abs()),
        if failed then LoadFailed else if items.Some? then LoadOk(items.value) else LoadWithoutData)
    {
      if failed {
        ordered := [];
        orderedDates := [];
        picked := 0;
        syncDue := true;
      } else if items.Some? {
        var validOrders := Take(ValidItems(items.value), CAP);
        ordered := validOrders;
        orderedDates := Image(validOrders);
        picked := PickedCount(validOrders);
        syncDue := true;
      }
    }

    /** A shift button: absent on off days, disabled on days already ordered for. */
    method PressShiftButton(date: int, shift: string)
      modifies this`presses
      ensures Abs() == Step(cfg, old(Abs()), PressShift(date, shift))
    {
      if cfg.CanOrder(date) && !ButtonDisabled(Abs(), date) {
        presses := presses + [DateShift(date, shift)];
      }
    }

    /** `handleCheckBoxPress` when its request has succeeded. */
    method FinishPlacing(i: nat, serverId: Option<int>, now: Clock)
      modifies this
      ensures Abs() == Step(cfg, old(Abs()), PlaceOk(i, serverId, now))
    {
      if i < |presses| {
        var p := presses[i];
        presses := RemoveAt(presses, i);
        selectedMap := selectedMap[p.date := p.shift];
        var newOrder := Order(NewId(serverId, now), p.date, p.shift, false);
        ordered := Take(ordered + [newOrder], CAP);
        orderedDates := Take(orderedDates + [p], CAP);
        syncDue := true;
      }
    }

    /** `handleCancelOrder` up to its request; the handler captures the lists it sees. */
    method PressDeleteButton(id: int)
      modifies this`deletions
      ensures Abs() == Step(cfg, old(Abs()), PressDelete(id))
    {
      if exists i :: 0 <= i < |local| && local[i].id == id && id != 0 && CanDelete(cfg, local[i]) {
        deletions := deletions + [Deletion(id, ordered, local)];
      }
    }

    /** `handleCancelOrder` when its request has succeeded. */
    method FinishDeleting(i: nat)
      modifies this
      ensures Abs() == Step(cfg, old(Abs()), DeleteOk(i))
    {
      if i < |deletions| {
        var d := deletions[i];
        deletions := RemoveAt(deletions, i);
        local := Without(WithId(d.local), d.id);
        HandleOrderDeleted(d.ordered, d.id);
      }
    }

    /** `handleOrderDeleted`, whose closure holds `captured` as `ordered`. */
    method HandleOrderDeleted(captured: seq<Order>, id: int)
      modifies this
      ensures local == old(local) && presses == old(presses) && deletions == old(deletions)
      ensures ordered == Without(captured, id) && orderedDates == Image(ordered)
      ensures picked == PickedCount(ordered) && syncDue
      ensures selectedMap ==
        if FindOrder(captured, id).Some? then old(selectedMap) - {FindOrder(captured, id).value.date}
        else old(selectedMap)
    {
      var deletedOrder := FindOrder(captured, id);
      var updatedOrders := Without(captured, id);
      ordered := updatedOrders;
      orderedDates := Image(updatedOrders);
      picked := PickedCount(updatedOrders);
      syncDue := true;
      if deletedOrder.Some? {
        selectedMap := selectedMap - {deletedOrder.value.date};
      }
    }

    /** The modal's effect on its `orders` prop. */
    method SyncLocalOrders()
      modifies this`local, this`syncDue
      ensures Abs() == Step(cfg, old(Abs()), SyncModal)
    {
      if syncDue {
        local := WithId(ordered);
        syncDue := false;
      }
    }
  }
}
