/** The daily report: its arithmetic and its error rows. */
module DailyReport {
  import opened Sequences

  // ---------------------------------------------------------------- numbers

  /** A number as `parseFloat` and the arithmetic operators yield it, without rounding and without
      signed zeros. */
  datatype Number = NaN | PosInf | NegInf | Finite(r: real)

  function Neg(a: Number): Number {
    match a
    case NaN => NaN
    case PosInf => NegInf
    case NegInf => PosInf
    case Finite(x) => Finite(-x)
  }

  function Add(a: Number, b: Number): Number {
    if a.NaN? || b.NaN? then NaN
    else if a.Finite? && b.Finite? then Finite(a.r + b.r)
    else if a.Finite? then b
    else if b.Finite? || a == b then a
    else NaN
  }

  function Sub(a: Number, b: Number): Number {
    Add(a, Neg(b))
  }

  /** An infinity of the sign of `x`, or `NaN` for zero. */
  function Signed(x: real): Number {
    if x > 0.0 then PosInf else if x < 0.0 then NegInf else NaN
  }

  function Sign(a: Number): real
    requires !a.NaN?
  {
    match a
    case PosInf => 1.0
    case NegInf => -1.0
    case Finite(x) => x
  }

  function Mul(a: Number, b: Number): Number {
    if a.NaN? || b.NaN? then NaN
    else if a.Finite? && b.Finite? then Finite(a.r * b.r)
    else Signed(Sign(a) * Sign(b))
  }

  function Div(a: Number, b: Number): Number {
    if a.NaN? || b.NaN? then NaN
    else if !b.Finite? then if a.Finite? then Finite(0.0) else NaN
    else if b.r == 0.0 then Signed(Sign(a))
    else if a.Finite? then Finite(a.r / b.r)
    else Signed(Sign(a) * b.r)
  }

  /** `value || 0`. */
  function OrZero(a: Number): Number {
    if a.NaN? then Finite(0.0) else a
  }

  /** The operators beyond the finite numbers, for a finite `x`: every case of section 6.1.6.1 of
      ECMA-262 that is not `NaN` for having a `NaN` operand. */
  lemma InfinityTable(x: real)
    ensures Add(PosInf, Finite(x)) == Add(Finite(x), PosInf) == Add(PosInf, PosInf) == PosInf
    ensures Add(NegInf, Finite(x)) == Add(Finite(x), NegInf) == Add(NegInf, NegInf) == NegInf
    ensures Add(PosInf, NegInf) == Add(NegInf, PosInf) == NaN
    ensures Sub(PosInf, PosInf) == Sub(NegInf, NegInf) == NaN
    ensures Sub(PosInf, NegInf) == Sub(Finite(x), NegInf) == Sub(PosInf, Finite(x)) == PosInf
    ensures Sub(NegInf, PosInf) == Sub(Finite(x), PosInf) == Sub(NegInf, Finite(x)) == NegInf
    ensures Mul(PosInf, PosInf) == Mul(NegInf, NegInf) == PosInf && Mul(PosInf, NegInf) == Mul(NegInf, PosInf) == NegInf
    ensures Mul(PosInf, Finite(x)) == Mul(Finite(x), PosInf)
         == if x > 0.0 then PosInf else if x < 0.0 then NegInf else NaN
    ensures Mul(NegInf, Finite(x)) == Mul(Finite(x), NegInf)
         == if x > 0.0 then NegInf else if x < 0.0 then PosInf else NaN
    ensures Div(Finite(x), PosInf) == Div(Finite(x), NegInf) == Finite(0.0)
    ensures Div(PosInf, PosInf) == Div(PosInf, NegInf) == Div(NegInf, PosInf) == Div(NegInf, NegInf) == NaN
    ensures Div(Finite(x), Finite(0.0)) == if x > 0.0 then PosInf else if x < 0.0 then NegInf else NaN
    ensures x > 0.0 ==> Div(PosInf, Finite(x)) == PosInf && Div(NegInf, Finite(x)) == NegInf
    ensures x < 0.0 ==> Div(PosInf, Finite(x)) == NegInf && Div(NegInf, Finite(x)) == PosInf
    ensures Div(PosInf, Finite(0.0)) == PosInf && Div(NegInf, Finite(0.0)) == NegInf
  {
  }

  lemma NaNSpreads(a: Number)
    ensures Add(a, NaN) == Add(NaN, a) == Sub(a, NaN) == Sub(NaN, a) == NaN
    ensures Mul(a, NaN) == Mul(NaN, a) == Div(a, NaN) == Div(NaN, a) == NaN
  {
  }

  // ---------------------------------------------------------------- toFixed(1)

  /** The tenths `x.toFixed(1)` shows: the nearest to `10 x`, the larger of two, and for negative `x`
      the negation of that for `-x`. */
  function Tenths(x: real): int {
    if x < 0.0 then -(10.0 * -x + 0.5).Floor else (10.0 * x + 0.5).Floor
  }

  datatype Shown = ShownNaN | ShownInfinity(negative: bool) | Fixed(tenths: int)

  function ToFixed1(a: Number): Shown {
    match a
    case NaN => ShownNaN
    case PosInf => ShownInfinity(false)
    case NegInf => ShownInfinity(true)
    case Finite(x) => Fixed(Tenths(x))
  }

  function Distance(n: int, x: real): real {
    var d := n as real / 10.0 - x;
    if d < 0.0 then -d else d
  }

  /** The text is the one section 21.1.3.3 of ECMA-262 asks for: no integer is closer, and of two
      equally close the larger is taken. */
  lemma TenthsNearest(x: real, n: int)
    requires x >= 0.0
    ensures Distance(Tenths(x), x) <= 0.05
    ensures Distance(Tenths(x), x) <= Distance(n, x)
    ensures Distance(n, x) == Distance(Tenths(x), x) ==> n <= Tenths(x)
  {
    var t := Tenths(x);
    assert t as real <= 10.0 * x + 0.5 < t as real + 1.0;
    if n > t {
      assert n as real >= t as real + 1.0;
    } else if n < t {
      assert n as real <= t as real - 1.0;
    }
  }

  lemma TenthsClose(x: real)
    ensures Distance(Tenths(x), x) <= 0.05
  {
    if x < 0.0 {
      TenthsNearest(-x, 0);
      assert Tenths(x) == -Tenths(-x);
    } else {
      TenthsNearest(x, 0);
    }
  }

  // ---------------------------------------------------------------- handleCal

  /** The fields as numbers; `productValue` is `None` while no product is chosen. */
  datatype Form = Form(
    total: Number, errors: Number, lowSpeed: Number, highSpeed: Number,
    timeWork: Number, shutdownTime: Number, productValue: Option<Number>)

  /** What `handleCal` sets. */
  datatype Figures = Figures(quantity: Number, percent: Shown, errPercent: Shown, lowPercent: Shown, highPercent: Shown)

  function PercentOf(part: Number, whole: Number): Number {
    Mul(Div(part, whole), Finite(100.0))
  }

  /** `None` stands for the message that a field is empty. */
  function HandleCal(f: Form): Option<Figures> {
    if f.productValue.None? then None
    else
      var per := Mul(Div(Mul(f.total, f.productValue.value), Sub(f.timeWork, f.shutdownTime)), Finite(100.0));
      Some(Figures(
        Sub(Sub(Sub(f.total, f.errors), f.lowSpeed), f.highSpeed),
        ToFixed1(per),
        ToFixed1(PercentOf(f.errors, f.total)),
        ToFixed1(PercentOf(f.lowSpeed, f.total)),
        ToFixed1(PercentOf(f.highSpeed, f.total))))
  }

  predicate Countable(f: Form) {
    f.total.Finite? && f.total.r > 0.0 && f.errors.Finite? && f.lowSpeed.Finite? && f.highSpeed.Finite?
      && f.productValue.Some?
  }

  /** The text shows `x` to the nearest tenth. */
  ghost predicate ShowsShare(s: Shown, x: real) {
    s.Fixed? && -0.05 <= s.tenths as real / 10.0 - x <= 0.05
  }

  lemma QuotientShown(x: real, y: real)
    ensures var s := ToFixed1(PercentOf(Finite(x), Finite(y)));
      (s.Fixed? <==> y != 0.0) && (y != 0.0 ==> ShowsShare(s, x / y * 100.0))
  {
    if y != 0.0 {
      TenthsClose(x / y * 100.0);
    }
  }

  lemma ShareShown(part: real, whole: real)
    requires whole > 0.0
    ensures ShowsShare(ToFixed1(PercentOf(Finite(part), Finite(whole))), part / whole * 100.0)
  {
    QuotientShown(part, whole);
  }

  lemma SharesAddUp(q: real, a: real, b: real, c: real)
    requires q > 0.0
    ensures (q - a - b - c) / q * 100.0 + a / q * 100.0 + b / q * 100.0 + c / q * 100.0 == 100.0
  {
    var n := q - a - b - c;
    assert n / q + a / q + b / q + c / q == (n + a + b + c) / q;
    assert q / q == 1.0;
  }

  /** Pieces are conserved: the net quantity and the three losses make up the total; each share is
      shown to within 0.05, and with the net share the displayed ones make up 100 within 0.15. */
  lemma PiecesConserved(f: Form)
    requires Countable(f)
    ensures HandleCal(f).Some?
    ensures var g := HandleCal(f).value;
      && g.quantity.Finite?
      && g.quantity.r + f.errors.r + f.lowSpeed.r + f.highSpeed.r == f.total.r
      && ShowsShare(g.errPercent, f.errors.r / f.total.r * 100.0)
      && ShowsShare(g.lowPercent, f.lowSpeed.r / f.total.r * 100.0)
      && ShowsShare(g.highPercent, f.highSpeed.r / f.total.r * 100.0)
      && (var shown := (g.errPercent.tenths + g.lowPercent.tenths + g.highPercent.tenths) as real / 10.0;
          var exact := 100.0 - g.quantity.r / f.total.r * 100.0;
          -0.15 <= shown - exact <= 0.15)
  {
    var q := f.total.r;
    ShareShown(f.errors.r, q);
    ShareShown(f.lowSpeed.r, q);
    ShareShown(f.highSpeed.r, q);
    SharesAddUp(q, f.errors.r, f.lowSpeed.r, f.highSpeed.r);
  }

  lemma EfficiencyOf(f: Form, work: real, net: real)
    requires f.productValue.Some?
    requires Mul(f.total, f.productValue.value) == Finite(work) && Sub(f.timeWork, f.shutdownTime) == Finite(net)
    ensures HandleCal(f).Some? && HandleCal(f).value.percent == ToFixed1(PercentOf(Finite(work), Finite(net)))
  {
  }

  /** The efficiency is shown as a number exactly when some time was worked, and then it is the ideal
      time of all pieces over the time worked, in percent, to within 0.05. */
  lemma EfficiencyShownIff(f: Form, cycle: real, work: real, net: real)
    requires f.productValue == Some(Finite(cycle)) && f.total.Finite? && f.timeWork.Finite? && f.shutdownTime.Finite?
    requires work == f.total.r * cycle && net == f.timeWork.r - f.shutdownTime.r
    ensures HandleCal(f).Some?
    ensures HandleCal(f).value.percent.Fixed? <==> net != 0.0
    ensures net != 0.0 ==> ShowsShare(HandleCal(f).value.percent, work / net * 100.0)
  {
    EfficiencyOf(f, work, net);
    QuotientShown(work, net);
  }

  /** Without a product nothing is calculated. */
  lemma CalculatedIff(f: Form)
    ensures HandleCal(f).Some? <==> f.productValue.Some?
  {
  }

  /** A share of nothing produced is shown as an infinity of the loss's sign, or as `NaN` for no loss. */
  lemma ShareOfNothing(f: Form)
    requires f.productValue.Some? && f.total == Finite(0.0) && f.errors.Finite?
    ensures HandleCal(f).value.errPercent ==
      if f.errors.r > 0.0 then ShownInfinity(false) else if f.errors.r < 0.0 then ShownInfinity(true) else ShownNaN
  {
  }

  /** An unreadable field makes the net quantity `NaN`, and its own share too; the good quantity sent
      is zero then. */
  lemma UnreadableField(f: Form)
    requires f.productValue.Some? && (f.total.NaN? || f.errors.NaN? || f.lowSpeed.NaN? || f.highSpeed.NaN?)
    ensures var g := HandleCal(f).value;
      && g.quantity == NaN && GoodQuantity(f, g.quantity) == Finite(0.0)
      && (f.total.NaN? || f.errors.NaN? ==> g.errPercent == ShownNaN)
      && (f.total.NaN? || f.lowSpeed.NaN? ==> g.lowPercent == ShownNaN)
      && (f.total.NaN? || f.highSpeed.NaN? ==> g.highPercent == ShownNaN)
  {
  }

  /** The `good_quantity` sent after `handleCal`: the losses are taken off the net quantity again. */
  function GoodQuantity(f: Form, quantity: Number): Number {
    OrZero(Sub(Sub(Sub(quantity, f.errors), f.lowSpeed), f.highSpeed))
  }

  /** So what is sent is the net quantity exactly when there were no losses on balance. */
  lemma GoodQuantityIsNetIff(f: Form)
    requires Countable(f)
    ensures var net := HandleCal(f).value.quantity;
      GoodQuantity(f, net) == net <==> f.errors.r + f.lowSpeed.r + f.highSpeed.r == 0.0
  {
    PiecesConserved(f);
  }

  /** For numbers it is the net quantity less all losses once more. */
  lemma GoodQuantityIs(f: Form)
    requires Countable(f)
    ensures var sent := GoodQuantity(f, HandleCal(f).value.quantity);
      sent.Finite? && sent.r == f.total.r - 2.0 * (f.errors.r + f.lowSpeed.r + f.highSpeed.r)
  {
    PiecesConserved(f);
  }

  /** The report form's fields, as far as `handleCal` reads or sets them. */
  class ReportForm {
    var form: Form
    var figures: Figures
    var isShowSendBtn: bool

    constructor (form: Form)
      ensures this.form == form && !isShowSendBtn
      ensures figures == Figures(Finite(0.0), Fixed(0), Fixed(0), Fixed(0), Fixed(0))
    {
      this.form := form;
      figures := Figures(Finite(0.0), Fixed(0), Fixed(0), Fixed(0), Fixed(0));
      isShowSendBtn := false;
    }

    /** `handleCal`; `alert` says that it refused for want of a product. */
    method Calculate() returns (alert: bool)
      modifies this`figures, this`isShowSendBtn
      ensures alert <==> form.productValue.None?
      ensures alert ==> figures == old(figures) && isShowSendBtn == old(isShowSendBtn)
      ensures !alert ==> isShowSendBtn && Some(figures) == HandleCal(form)
    {
      if form.productValue.None? {
        return true;
      }
      isShowSendBtn := true;
      var ideal := Mul(form.total, form.productValue.value);
      var per := Mul(Div(ideal, Sub(form.timeWork, form.shutdownTime)), Finite(100.0));
      var errPer := Mul(Div(form.errors, form.total), Finite(100.0));
      var firstPer := Mul(Div(form.lowSpeed, form.total), Finite(100.0));
      var tempPer := Mul(Div(form.highSpeed, form.total), Finite(100.0));
      var quantity := Sub(Sub(Sub(form.total, form.errors), form.lowSpeed), form.highSpeed);
      figures := Figures(quantity, ToFixed1(per), ToFixed1(errPer), ToFixed1(firstPer), ToFixed1(tempPer));
      alert := false;
    }
  }

  // ---------------------------------------------------------------- error rows

  /** The id text of a row is its creation time and the list length then. */
  datatype RowId = RowId(time: nat, index: nat)

  datatype Row = Row(id: RowId, code: string, description: string, shutdownTime: string, errorDate: string)

  datatype Field = Code | Description | ShutdownTime | ErrorDate

  datatype RowEvent =
    | AddRow(now: nat, date: string)
    | DeleteRow(id: RowId)
    | SelectCode(id: RowId, code: string)
    | ChangeField(id: RowId, field: Field, value: string)

  function NewRow(now: nat, index: nat, date: string): Row {
    Row(RowId(now, index), "", "", "", date)
  }

  /** `{...item, [field]: value}`. */
  function WithField(row: Row, field: Field, value: string): Row {
    match field
    case Code => row.(code := value)
    case Description => row.(description := value)
    case ShutdownTime => row.(shutdownTime := value)
    case ErrorDate => row.(errorDate := value)
  }

  function SelectInRow(desc: string -> string, row: Row, code: string): Row {
    row.(code := code,
         description :=
           if row.description == "" || row.description == desc(row.code) then desc(code) else row.description)
  }

  function OtherThan(id: RowId): Row -> bool {
    (r: Row) => r.id != id
  }

  function StepRows(desc: string -> string, rows: seq<Row>, e: RowEvent): seq<Row> {
    match e
    case AddRow(now, date) => rows + [NewRow(now, |rows|, date)]
    case DeleteRow(id) => Filter(OtherThan(id), rows)
    case SelectCode(id, code) => Map((r: Row) => if r.id == id then SelectInRow(desc, r, code) else r, rows)
    case ChangeField(id, field, value) => Map((r: Row) => if r.id == id then WithField(r, field, value) else r, rows)
  }

  function RunRows(desc: string -> string, es: seq<RowEvent>): seq<Row> {
    if es == [] then [] else StepRows(desc, RunRows(desc, DropLast(es)), Last(es))
  }

  ghost predicate RowIdsDistinct(rows: seq<Row>) {
    forall i, j :: 0 <= i < j < |rows| ==> rows[i].id != rows[j].id
  }

  /** The time of the last add, and whether a row was deleted after it. */
  function LastAdd(es: seq<RowEvent>): nat {
    if es == [] then 0 else if Last(es).AddRow? then Last(es).now else LastAdd(DropLast(es))
  }

  predicate DeletedSince(es: seq<RowEvent>) {
    es != [] && (Last(es).DeleteRow? || (!Last(es).AddRow? && DeletedSince(DropLast(es))))
  }

  /** The clock does not run back, and after a delete it has moved on before the next add. */
  ghost predicate ClockMoves(es: seq<RowEvent>) {
    es != [] ==>
      && ClockMoves(DropLast(es))
      && (Last(es).AddRow? ==>
            || Last(es).now > LastAdd(DropLast(es))
            || (Last(es).now == LastAdd(DropLast(es)) && !DeletedSince(DropLast(es))))
  }

  /** Row times are past, and until a row is deleted the indices of this instant are below the length. */
  ghost predicate RowsSound(rows: seq<Row>, clock: nat, deleted: bool) {
    && RowIdsDistinct(rows)
    && (forall i :: 0 <= i < |rows| ==> rows[i].id.time <= clock)
    && (!deleted ==> forall i :: 0 <= i < |rows| && rows[i].id.time == clock ==> rows[i].id.index < |rows|)
  }

  lemma OthersSound(rows: seq<Row>, id: RowId)
    requires RowIdsDistinct(rows)
    ensures RowIdsDistinct(Filter(OtherThan(id), rows))
    ensures forall r :: r in Filter(OtherThan(id), rows) <==> r in rows && r.id != id
  {
    FilterMembers(OtherThan(id), rows);
    FilterPairwise(OtherThan(id), rows, (r: Row, q: Row) => r.id != q.id);
  }

  lemma StepRowsSound(desc: string -> string, rows: seq<Row>, e: RowEvent, clock: nat, deleted: bool)
    requires RowsSound(rows, clock, deleted)
    requires e.AddRow? ==> e.now > clock || (e.now == clock && !deleted)
    ensures RowsSound(StepRows(desc, rows, e),
      if e.AddRow? then e.now else clock,
      if e.SelectCode? || e.ChangeField? then deleted else e.DeleteRow?)
  {
    match e
    case AddRow(now, _) =>
    case DeleteRow(id) =>
      OthersSound(rows, id);
      var kept := Filter(OtherThan(id), rows);
      forall i | 0 <= i < |kept| ensures kept[i].id.time <= clock {
        assert kept[i] in kept;
      }
    case _ =>
      EditKeepsOthers(desc, rows, e);
  }

  /** Selecting a code or changing a field edits the rows of its id in place: no row moves, no id
      changes, and the other rows are untouched. */
  lemma EditKeepsOthers(desc: string -> string, rows: seq<Row>, e: RowEvent)
    requires e.SelectCode? || e.ChangeField?
    ensures var next := StepRows(desc, rows, e);
      && |next| == |rows|
      && (forall i :: 0 <= i < |rows| ==> next[i].id == rows[i].id && (rows[i].id != e.id ==> next[i] == rows[i]))
      && (forall i :: 0 <= i < |rows| && rows[i].id == e.id ==>
            next[i] ==
              if e.SelectCode? then SelectInRow(desc, rows[i], e.code) else WithField(rows[i], e.field, e.value))
  {
  }

  /** A change sets the field named in the row and no other. */
  lemma FieldSet(row: Row, value: string)
    ensures WithField(row, Code, value) == Row(row.id, value, row.description, row.shutdownTime, row.errorDate)
    ensures WithField(row, Description, value) == Row(row.id, row.code, value, row.shutdownTime, row.errorDate)
    ensures WithField(row, ShutdownTime, value) == Row(row.id, row.code, row.description, value, row.errorDate)
    ensures WithField(row, ErrorDate, value) == Row(row.id, row.code, row.description, row.shutdownTime, value)
  {
  }

  /** Selecting a code fills in its standard text unless another text has been typed in. */
  lemma CodeSelected(desc: string -> string, row: Row, code: string)
    ensures var r := SelectInRow(desc, row, code);
      && r.code == code && r.id == row.id && r.shutdownTime == row.shutdownTime && r.errorDate == row.errorDate
      && (row.description == "" ==> r.description == desc(code))
      && (row.description == desc(row.code) ==> r.description == desc(code))
      && (row.description !in {"", desc(row.code)} ==> r.description == row.description)
  {
  }

  /** An add appends an empty row dated today under an id made of the time and the list's length. */
  lemma RowAdded(desc: string -> string, rows: seq<Row>, now: nat, date: string)
    ensures StepRows(desc, rows, AddRow(now, date)) == rows + [Row(RowId(now, |rows|), "", "", "", date)]
  {
  }

  /** A delete removes the rows of its id and no other. */
  lemma DeleteRemovesOnly(desc: string -> string, rows: seq<Row>, id: RowId)
    requires RowIdsDistinct(rows)
    ensures var next := StepRows(desc, rows, DeleteRow(id));
      RowIdsDistinct(next) && forall r :: r in next <==> r in rows && r.id != id
  {
    OthersSound(rows, id);
  }

  lemma {:induction false} RunRowsSound(desc: string -> string, es: seq<RowEvent>)
    requires ClockMoves(es)
    ensures RowsSound(RunRows(desc, es), LastAdd(es), DeletedSince(es))
  {
    if es == [] {
    } else {
      RunRowsSound(desc, DropLast(es));
      StepRowsSound(desc, RunRows(desc, DropLast(es)), Last(es), LastAdd(DropLast(es)), DeletedSince(DropLast(es)));
    }
  }

  /** An add keeps row ids distinct exactly when no held row has the id made of its time and the
      list's length. */
  lemma AddKeepsIdsIff(desc: string -> string, rows: seq<Row>, now: nat, date: string)
    requires RowIdsDistinct(rows)
    ensures RowIdsDistinct(StepRows(desc, rows, AddRow(now, date)))
      <==> forall r :: r in rows ==> r.id != RowId(now, |rows|)
  {
    var next := StepRows(desc, rows, AddRow(now, date));
    assert next[|rows|].id == RowId(now, |rows|) && forall i :: 0 <= i < |rows| ==> next[i] == rows[i];
    if RowIdsDistinct(next) {
      forall r | r in rows ensures r.id != RowId(now, |rows|) {
        var i :| 0 <= i < |rows| && rows[i] == r;
        assert next[i].id != next[|rows|].id;
      }
    }
  }

  /** Deletes and edits keep row ids distinct. */
  lemma OtherStepsKeepIds(desc: string -> string, rows: seq<Row>, e: RowEvent)
    requires RowIdsDistinct(rows) && !e.AddRow?
    ensures RowIdsDistinct(StepRows(desc, rows, e))
  {
    if e.DeleteRow? {
      OthersSound(rows, e.id);
    } else {
      EditKeepsOthers(desc, rows, e);
    }
  }

  /** Every add finds its id unused. */
  ghost predicate AddsFindIdUnused(desc: string -> string, es: seq<RowEvent>) {
    es != [] ==>
      && AddsFindIdUnused(desc, DropLast(es))
      && var rows := RunRows(desc, DropLast(es));
         Last(es).AddRow? ==> forall r :: r in rows ==> r.id != RowId(Last(es).now, |rows|)
  }

  /** Row ids have been distinct at every point of a run exactly when every add found its id unused. */
  lemma {:induction false} IdsAlwaysDistinctIff(desc: string -> string, es: seq<RowEvent>)
    ensures (forall n :: 0 <= n <= |es| ==> RowIdsDistinct(RunRows(desc, es[..n]))) <==> AddsFindIdUnused(desc, es)
  {
    assert es[..|es|] == es;
    if es == [] {
    } else {
      var front, e := DropLast(es), Last(es);
      var rows := RunRows(desc, front);
      IdsAlwaysDistinctIff(desc, front);
      assert forall n :: 0 <= n < |es| ==> es[..n] == front[..n];
      assert front[..|front|] == front;
      if RowIdsDistinct(rows) {
        if e.AddRow? {
          AddKeepsIdsIff(desc, rows, e.now, e.date);
        } else {
          OtherStepsKeepIds(desc, rows, e);
        }
      }
    }
  }

  /** Row ids are pairwise distinct in every run in which the clock moves on after a delete. */
  lemma RowIdsUnique(desc: string -> string, es: seq<RowEvent>)
    requires ClockMoves(es)
    ensures RowIdsDistinct(RunRows(desc, es))
  {
    RunRowsSound(desc, es);
  }

  /** Otherwise they need not be: two adds, a delete and an add within one instant. */
  lemma SameInstantCollides(desc: string -> string, now: nat) returns (es: seq<RowEvent>)
    ensures |RunRows(desc, es)| == 2 && !RowIdsDistinct(RunRows(desc, es))
  {
    var e1 := [AddRow(now, "")];
    var e2 := e1 + [AddRow(now, "")];
    var e3 := e2 + [DeleteRow(RowId(now, 0))];
    es := e3 + [AddRow(now, "")];
    var a, b := NewRow(now, 0, ""), NewRow(now, 1, "");
    assert RunRows(desc, []) == [];
    assert RunRows(desc, e1) == [a];
    assert RunRows(desc, e2) == [a, b];
    assert DropLast([a, b]) == [a] && DropLast([a]) == [];
    assert Filter(OtherThan(a.id), [a]) == Filter(OtherThan(a.id), []);
    assert Filter(OtherThan(a.id), [a, b]) == [b];
    assert RunRows(desc, es) == [b, b];
    assert RunRows(desc, es)[0].id == RunRows(desc, es)[1].id;
  }

  function SelectAll(desc: string -> string, row: Row, codes: seq<string>): Row {
    if codes == [] then row else SelectInRow(desc, SelectAll(desc, row, DropLast(codes)), Last(codes))
  }

  /** A text typed in by the user outlives any selections of codes exactly when it was not the
      standard text of a code selected before the last, or is that of the last. */
  lemma {:induction false} TypedTextKeptIff(desc: string -> string, row: Row, codes: seq<string>)
    requires row.description != "" && row.description != desc(row.code) && codes != []
    ensures SelectAll(desc, row, codes).description == row.description
       <==> desc(Last(codes)) == row.description || (forall c :: c in DropLast(codes) ==> desc(c) != row.description)
    ensures SelectAll(desc, row, codes).code == Last(codes)
    ensures SelectAll(desc, row, codes).description in {row.description, desc(Last(codes))}
  {
    var front := DropLast(codes);
    if front == [] {
    } else {
      TypedTextKeptIff(desc, row, front);
      assert front == DropLast(front) + [Last(front)];
    }
  }

  class ErrorRows {
    const desc: string -> string
    var reportErrors: seq<Row>
    var selectedErrorRowId: Option<RowId>

    constructor (desc: string -> string)
      ensures this.desc == desc && reportErrors == [] && selectedErrorRowId == None
    {
      this.desc := desc;
      reportErrors, selectedErrorRowId := [], None;
    }

    method HandleAddErrorRow(now: nat, date: string)
      modifies this`reportErrors
      ensures reportErrors == StepRows(desc, old(reportErrors), AddRow(now, date))
    {
      reportErrors := reportErrors + [NewRow(now, |reportErrors|, date)];
    }

    method HandleChangeErrorField(rowId: RowId, field: Field, value: string)
      modifies this`reportErrors
      ensures reportErrors == StepRows(desc, old(reportErrors), ChangeField(rowId, field, value))
    {
      reportErrors := Map((r: Row) => if r.id == rowId then WithField(r, field, value) else r, reportErrors);
    }

    method HandleDeleteErrorRow(rowId: RowId)
      modifies this`reportErrors
      ensures reportErrors == StepRows(desc, old(reportErrors), DeleteRow(rowId))
    {
      reportErrors := Filter(OtherThan(rowId), reportErrors);
    }

    method HandleOpenErrorPicker(rowId: RowId)
      modifies this`selectedErrorRowId
      ensures selectedErrorRowId == Some(rowId)
    {
      selectedErrorRowId := Some(rowId);
    }

    /** A selection without an open row does nothing. */
    method HandleSelectErrorCode(code: string)
      modifies this
      ensures selectedErrorRowId == None
      ensures reportErrors == if old(selectedErrorRowId).None? then old(reportErrors)
                              else StepRows(desc, old(reportErrors), SelectCode(old(selectedErrorRowId).value, code))
    {
      if selectedErrorRowId.None? {
        return;
      }
      var id := selectedErrorRowId.value;
      reportErrors := Map(
        (r: Row) =>
          if r.id != id then r
          else if r.description == "" || r.description == desc(r.code) then r.(code := code, description := desc(code))
          else r.(code := code),
        reportErrors);
      selectedErrorRowId := None;
    }
  }
}
