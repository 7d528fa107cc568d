/**
 * The schedule page: which staff member works the morning and the
 * afternoon shift of a calendar day. A day's answer comes from three layers
 * in priority order: a per-date override, the template row for the day's A/B
 * week parity, and the template row marked `every`. Saving the day editor
 * turns the proposed names into one override write per shift.
 */
module Schedule {
  import opened Optional
  import opened Calendar

  datatype Shift = Morning | Afternoon
  datatype WeekType = A | B | Every

  /** A row of `schedule_templates`. */
  datatype TemplateRow = TemplateRow(dayOfWeek: int, shift: Shift, weekType: WeekType, staffName: string)

  /** A row of `schedule_overrides`. */
  datatype OverrideRow = OverrideRow(date: Date, shift: Shift, staffName: string)

  // ------------------------------------------------------------ week parity

  /** The offset from a weekday to the Monday that starts its week; Sunday belongs to the previous Monday. */
  function MondayOffset(weekday: int): int {
    if weekday == 0 then -6 else 1 - weekday
  }

  /** `alignToMonday`: the day number of the Monday of n's week. */
  function MondayOf(n: int): (m: int)
    ensures DayOfWeek(m) == 1
    ensures n - 6 <= m <= n
    ensures DayOfWeek(n) == 0 ==> m == n - 6
    ensures DayOfWeek(n) != 0 ==> m == n - (DayOfWeek(n) - 1)
  {
    var m := n + MondayOffset(DayOfWeek(n));
    assert DayOfWeek(m) == 1 by {
      assert n + 4 == 7 * ((n + 4) / 7) + DayOfWeek(n);
      if DayOfWeek(n) == 0 {
        assert m + 4 == 7 * ((n + 4) / 7 - 1) + 1;
      } else {
        assert m + 4 == 7 * ((n + 4) / 7) + 1;
      }
    }
    m
  }

  /** A week later, the Monday is a week later. */
  lemma MondayOfNextWeek(n: int)
    ensures MondayOf(n + 7) == MondayOf(n) + 7
  {
    DayOfWeekPeriodic(n, 1);
  }

  /** JavaScript's `a % b` for b > 0: the remainder takes the sign of a. */
  function JsRemainder(a: int, b: int): (r: int)
    requires b > 0
    ensures -b < r < b
    ensures a >= 0 ==> r == a % b
    ensures a < 0 ==> r == -((-a) % b)
  {
    if a >= 0 then a % b else -((-a) % b)
  }

  /** Whole weeks from the Monday of s's week to the Monday of n's week (negative when n is earlier). */
  function WeeksBetween(n: int, s: int): (w: int)
    ensures 7 * w == MondayOf(n) - MondayOf(s)
  {
    var d := MondayOf(n) - MondayOf(s);
    assert d % 7 == 0 by {
      assert (MondayOf(n) + 4) % 7 == 1 && (MondayOf(s) + 4) % 7 == 1;
      assert MondayOf(n) + 4 == 7 * ((MondayOf(n) + 4) / 7) + 1;
      assert MondayOf(s) + 4 == 7 * ((MondayOf(s) + 4) / 7) + 1;
      assert d == 7 * ((MondayOf(n) + 4) / 7 - (MondayOf(s) + 4) / 7);
    }
    d / 7
  }

  /** The A/B label of a week count: `((w % 2) + 2) % 2 === 0 ? 'A' : 'B'`, even for negative counts. */
  function ParityOf(w: int): (r: WeekType)
    ensures r == (if w % 2 == 0 then A else B)
  {
    var inner := JsRemainder(w, 2);
    assert (inner == 0) == (w % 2 == 0) by {
      if w < 0 {
        assert -w == 2 * ((-w) / 2) + (-w) % 2;
      }
    }
    if JsRemainder(inner + 2, 2) == 0 then A else B
  }

  /** Consecutive week counts have opposite labels. */
  lemma ParityAlternates(w: int)
    ensures ParityOf(w + 1) == Flip(ParityOf(w))
  {
  }

  predicate ValidStart(start: Option<Date>) {
    start.Some? ==> Valid(start.value)
  }

  /**
   * `getWeekType`: null without a configured start date; otherwise A when an
   * even number of weeks separates the Monday of date's week from the
   * Monday of the start date's week, and B when the number is odd.
   */
  function GetWeekType(date: Date, start: Option<Date>): (r: Option<WeekType>)
    requires Valid(date) && ValidStart(start)
    ensures r.None? <==> start.None?
    ensures r != Some(Every)
  {
    match start
    case None => None
    case Some(s) => Some(ParityOf(WeeksBetween(DayNumber(date), DayNumber(s))))
  }

  function Flip(wt: WeekType): WeekType {
    match wt
    case A => B
    case B => A
    case Every => Every
  }

  /** The start date's own week is an A week. */
  lemma StartWeekIsA(start: Date)
    requires Valid(start)
    ensures GetWeekType(start, Some(start)) == Some(A)
  {
    var n := DayNumber(start);
    assert 7 * WeeksBetween(n, n) == 0;
    assert ParityOf(0) == A;
  }

  /** Two dates that share a Monday-aligned week share a parity; a Sunday goes with the Monday six days before it. */
  lemma SameWeekSameType(d1: Date, d2: Date, start: Date)
    requires Valid(d1) && Valid(d2) && Valid(start)
    requires MondayOf(DayNumber(d1)) == MondayOf(DayNumber(d2))
    ensures GetWeekType(d1, Some(start)) == GetWeekType(d2, Some(start))
  {
  }

  lemma SundayGoesWithPreviousMonday(sunday: Date, start: Date)
    requires Valid(sunday) && Valid(start) && DayOfWeek(DayNumber(sunday)) == 0
    ensures DayOfWeek(DayNumber(AddDays(sunday, -6))) == 1
    ensures GetWeekType(sunday, Some(start)) == GetWeekType(AddDays(sunday, -6), Some(start))
  {
    var n := DayNumber(sunday);
    var monday := AddDays(sunday, -6);
    assert DayNumber(monday) == n - 6;
    assert DayOfWeek(n - 6) == 1 by {
      DivisionOf(n + 4, 7, (n + 4) / 7, 0);
      DivisionOf(n - 2, 7, (n + 4) / 7 - 1, 1);
    }
    assert MondayOf(n) == n - 6;
    assert MondayOf(n - 6) == n - 6;
    SameWeekSameType(sunday, monday, start);
  }

  /** Parity flips from one week to the next, before the start date as well as after it. */
  lemma WeekTypeAlternates(date: Date, start: Date)
    requires Valid(date) && Valid(start)
    ensures GetWeekType(AddDays(date, 7), Some(start)).value == Flip(GetWeekType(date, Some(start)).value)
  {
    var n, s := DayNumber(date), DayNumber(start);
    var later := AddDays(date, 7);
    assert DayNumber(later) == n + 7;
    MondayOfNextWeek(n);
    var w := WeeksBetween(n, s);
    assert WeeksBetween(n + 7, s) == w + 1;
    ParityAlternates(w);
  }

  /** Parity repeats every fourteen days. */
  lemma WeekTypePeriodic(date: Date, start: Date)
    requires Valid(date) && Valid(start)
    ensures GetWeekType(AddDays(date, 14), Some(start)) == GetWeekType(date, Some(start))
  {
    var later := AddDays(date, 7);
    WeekTypeAlternates(date, start);
    WeekTypeAlternates(later, start);
    assert DayNumber(AddDays(later, 7)) == DayNumber(AddDays(date, 14));
    DayNumberInjective(AddDays(later, 7), AddDays(date, 14));
  }

  // -------------------------------------------------------- template layer

  predicate TemplateMatches(t: TemplateRow, day: int, shift: Shift, wt: WeekType) {
    t.dayOfWeek == day && t.shift == shift && t.weekType == wt
  }

  /** `templates.find(...)`: the first row for (day, shift, week type), if any. */
  function FindTemplate(templates: seq<TemplateRow>, day: int, shift: Shift, wt: WeekType): (r: Option<TemplateRow>)
    ensures r.None? <==> forall i :: 0 <= i < |templates| ==> !TemplateMatches(templates[i], day, shift, wt)
    ensures r.Some? ==> exists i :: 0 <= i < |templates| && templates[i] == r.value
                                    && TemplateMatches(templates[i], day, shift, wt)
                                    && forall j :: 0 <= j < i ==> !TemplateMatches(templates[j], day, shift, wt)
  {
    if templates == [] then None
    else if TemplateMatches(templates[0], day, shift, wt) then Some(templates[0])
    else
      var r := FindTemplate(templates[1..], day, shift, wt);
      assert forall i :: 1 <= i < |templates| ==> templates[i] == templates[1..][i - 1];
      r
  }

  /**
   * `findTemplate(shift)`: the week-specific row when the parity is known and
   * such a row exists, otherwise the `every` row.
   */
  function FindTemplateFor(templates: seq<TemplateRow>, day: int, shift: Shift, weekType: Option<WeekType>): (r: Option<TemplateRow>)
    ensures r.Some? ==> r.value in templates && r.value.dayOfWeek == day && r.value.shift == shift
    ensures r.Some? ==> r.value.weekType == Every || Some(r.value.weekType) == weekType
    ensures r.None? <==> FindTemplate(templates, day, shift, Every).None?
                         && (weekType.None? || FindTemplate(templates, day, shift, weekType.value).None?)
  {
    if weekType.Some? && FindTemplate(templates, day, shift, weekType.value).Some? then
      FindTemplate(templates, day, shift, weekType.value)
    else
      FindTemplate(templates, day, shift, Every)
  }

  /** JavaScript's `a || b` on strings: a unless it is empty. */
  function Or(a: string, b: string): (r: string)
    ensures r == a || r == b
    ensures r == [] <==> a == [] && b == []
  {
    if a != [] then a else b
  }

  /**
   * `getEffectiveTemplateStaff`: the template answer for a date and shift,
   * ignoring overrides.
   */
  function EffectiveTemplateStaff(templates: seq<TemplateRow>, start: Option<Date>, date: Date, shift: Shift): (r: string)
    requires Valid(date) && ValidStart(start)
    ensures var day, wt := DayOfWeek(DayNumber(date)), GetWeekType(date, start);
      if wt.Some? && FindTemplate(templates, day, shift, wt.value).Some? then
        r == FindTemplate(templates, day, shift, wt.value).value.staffName
      else if FindTemplate(templates, day, shift, Every).Some? then
        r == FindTemplate(templates, day, shift, Every).value.staffName
      else
        r == []
  {
    var day := DayOfWeek(DayNumber(date));
    var weekType := GetWeekType(date, start);
    if weekType.Some? && FindTemplate(templates, day, shift, weekType.value).Some? then
      FindTemplate(templates, day, shift, weekType.value).value.staffName
    else
      match FindTemplate(templates, day, shift, Every)
      case Some(t) => Or(t.staffName, "")
      case None => ""
  }

  // -------------------------------------------------------- override layer

  predicate OverrideMatches(o: OverrideRow, date: Date, shift: Shift) {
    o.date == date && o.shift == shift
  }

  /** `overrides.find(...)`: the first override row for (date, shift), if any. */
  function FindOverride(overrides: seq<OverrideRow>, date: Date, shift: Shift): (r: Option<OverrideRow>)
    ensures r.None? <==> forall i :: 0 <= i < |overrides| ==> !OverrideMatches(overrides[i], date, shift)
    ensures r.Some? ==> exists i :: 0 <= i < |overrides| && overrides[i] == r.value
                                    && OverrideMatches(overrides[i], date, shift)
                                    && forall j :: 0 <= j < i ==> !OverrideMatches(overrides[j], date, shift)
  {
    if overrides == [] then None
    else if OverrideMatches(overrides[0], date, shift) then Some(overrides[0])
    else
      var r := FindOverride(overrides[1..], date, shift);
      assert forall i :: 1 <= i < |overrides| ==> overrides[i] == overrides[1..][i - 1];
      r
  }

  /** What the calendar shows for one day. */
  datatype DayStaff = DayStaff(
    morning: string,
    afternoon: string,
    morningOverridden: bool,
    afternoonOverridden: bool,
    hasOverride: bool)

  /** The name an override row contributes: `override?.staff_name`, empty when there is none. */
  function OverrideName(o: Option<OverrideRow>): string {
    match o
    case Some(row) => row.staffName
    case None => ""
  }

  /** `getStaffForDate`: overrides first, then the template layers, then nothing. */
  function StaffForDate(templates: seq<TemplateRow>, overrides: seq<OverrideRow>, start: Option<Date>, date: Date): (r: DayStaff)
    requires Valid(date) && ValidStart(start)
    ensures r.morningOverridden <==> exists i :: 0 <= i < |overrides| && OverrideMatches(overrides[i], date, Morning)
    ensures r.afternoonOverridden <==> exists i :: 0 <= i < |overrides| && OverrideMatches(overrides[i], date, Afternoon)
    ensures r.hasOverride <==> r.morningOverridden || r.afternoonOverridden
    ensures var o := OverrideName(FindOverride(overrides, date, Morning));
      r.morning == if o != [] then o else EffectiveTemplateStaff(templates, start, date, Morning)
    ensures var o := OverrideName(FindOverride(overrides, date, Afternoon));
      r.afternoon == if o != [] then o else EffectiveTemplateStaff(templates, start, date, Afternoon)
  {
    var day := DayOfWeek(DayNumber(date));
    var morningOverride := FindOverride(overrides, date, Morning);
    var afternoonOverride := FindOverride(overrides, date, Afternoon);
    var weekType := GetWeekType(date, start);
    var morningTemplate := FindTemplateFor(templates, day, Morning, weekType);
    var afternoonTemplate := FindTemplateFor(templates, day, Afternoon, weekType);
    DayStaff(
      Or(OverrideName(morningOverride), Or(if morningTemplate.Some? then morningTemplate.value.staffName else "", "")),
      Or(OverrideName(afternoonOverride), Or(if afternoonTemplate.Some? then afternoonTemplate.value.staffName else "", "")),
      morningOverride.Some?,
      afternoonOverride.Some?,
      morningOverride.Some? || afternoonOverride.Some?)
  }

  // ---------------------------------------------------------- override writes

  /** The writes the day editor sends to `schedule_overrides`. */
  datatype OverrideOp =
    | UpsertOverride(date: Date, shift: Shift, staffName: string)
    | DeleteOverride(date: Date, shift: Shift)
    | DeleteOverridesOn(date: Date)

  /** Upsert on the conflict key (date, shift): rename the existing rows for the key. */
  function Rename(rows: seq<OverrideRow>, date: Date, shift: Shift, name: string): (r: seq<OverrideRow>)
    ensures |r| == |rows|
  {
    if rows == [] then []
    else
      var head := if OverrideMatches(rows[0], date, shift) then rows[0].(staffName := name) else rows[0];
      [head] + Rename(rows[1..], date, shift, name)
  }

  /** Delete the rows for (date, shift), or for the whole date when shift is None. */
  function Remove(rows: seq<OverrideRow>, date: Date, shift: Option<Shift>): (r: seq<OverrideRow>)
    ensures |r| <= |rows|
  {
    if rows == [] then []
    else
      var rest := Remove(rows[1..], date, shift);
      if rows[0].date == date && (shift.None? || rows[0].shift == shift.value) then rest else [rows[0]] + rest
  }

  function ApplyOverrideOp(rows: seq<OverrideRow>, op: OverrideOp): seq<OverrideRow> {
    match op
    case UpsertOverride(date, shift, name) =>
      if FindOverride(rows, date, shift).Some? then Rename(rows, date, shift, name)
      else rows + [OverrideRow(date, shift, name)]
    case DeleteOverride(date, shift) => Remove(rows, date, Some(shift))
    case DeleteOverridesOn(date) => Remove(rows, date, None)
  }

  function ApplyOverrideOps(rows: seq<OverrideRow>, ops: seq<OverrideOp>): seq<OverrideRow>
    decreases |ops|
  {
    if ops == [] then rows else ApplyOverrideOps(ApplyOverrideOp(rows, ops[0]), ops[1..])
  }

  /** The key an override write is about: no other (date, shift) is touched by it. */
  predicate Touches(op: OverrideOp, date: Date, shift: Shift) {
    match op
    case UpsertOverride(d, s, _) => d == date && s == shift
    case DeleteOverride(d, s) => d == date && s == shift
    case DeleteOverridesOn(d) => d == date
  }

  lemma {:induction false} FindAfterRename(rows: seq<OverrideRow>, date: Date, shift: Shift, name: string, d: Date, s: Shift)
    ensures FindOverride(Rename(rows, date, shift, name), d, s) ==
      if d == date && s == shift then
        (if FindOverride(rows, d, s).Some? then Some(OverrideRow(d, s, name)) else None)
      else FindOverride(rows, d, s)
  {
    if rows != [] {
      FindAfterRename(rows[1..], date, shift, name, d, s);
      assert Rename(rows, date, shift, name)[1..] == Rename(rows[1..], date, shift, name);
    }
  }

  lemma {:induction false} FindAfterRemove(rows: seq<OverrideRow>, date: Date, shift: Option<Shift>, d: Date, s: Shift)
    ensures FindOverride(Remove(rows, date, shift), d, s) ==
      if d == date && (shift.None? || shift.value == s) then None else FindOverride(rows, d, s)
  {
    if rows != [] {
      FindAfterRemove(rows[1..], date, shift, d, s);
      var rest := Remove(rows[1..], date, shift);
      if !(rows[0].date == date && (shift.None? || rows[0].shift == shift.value)) {
        assert ([rows[0]] + rest)[1..] == rest;
      }
    }
  }

  lemma FindAfterAppend(rows: seq<OverrideRow>, row: OverrideRow, d: Date, s: Shift)
    requires FindOverride(rows, row.date, row.shift).None?
    ensures FindOverride(rows + [row], d, s) ==
      if OverrideMatches(row, d, s) then Some(row) else FindOverride(rows, d, s)
    decreases |rows|
  {
    if rows != [] {
      assert (rows + [row])[1..] == rows[1..] + [row];
      FindAfterAppend(rows[1..], row, d, s);
    }
  }

  /** A write changes the answer of `find` for the key it touches and for no other key. */
  lemma FindAfterOp(rows: seq<OverrideRow>, op: OverrideOp, d: Date, s: Shift)
    ensures !Touches(op, d, s) ==> FindOverride(ApplyOverrideOp(rows, op), d, s) == FindOverride(rows, d, s)
    ensures op.UpsertOverride? && Touches(op, d, s) ==>
      FindOverride(ApplyOverrideOp(rows, op), d, s) == Some(OverrideRow(d, s, op.staffName))
    ensures !op.UpsertOverride? && Touches(op, d, s) ==> FindOverride(ApplyOverrideOp(rows, op), d, s).None?
  {
    match op
    case UpsertOverride(date, shift, name) =>
      FindAfterRename(rows, date, shift, name, d, s);
      if FindOverride(rows, date, shift).None? {
        FindAfterAppend(rows, OverrideRow(date, shift, name), d, s);
      }
    case DeleteOverride(date, shift) =>
      FindAfterRemove(rows, date, Some(shift), d, s);
    case DeleteOverridesOn(date) =>
      FindAfterRemove(rows, date, None, d, s);
  }

  /**
   * `handleSaveOverride`: one write per shift, morning first. A proposed name
   * that is non-empty and differs from the template answer is upserted;
   * otherwise the shift's override is deleted. Nothing is written when no
   * day is open.
   */
  function SaveOverrideOps(templates: seq<TemplateRow>, start: Option<Date>, modalDate: Option<Date>,
                           morning: string, afternoon: string): (ops: seq<OverrideOp>)
    requires modalDate.Some? ==> Valid(modalDate.value)
    requires ValidStart(start)
    ensures modalDate.None? ==> ops == []
    ensures modalDate.Some? ==>
      var date := modalDate.value;
      && |ops| == 2
      && Touches(ops[0], date, Morning) && !Touches(ops[0], date, Afternoon)
      && Touches(ops[1], date, Afternoon) && !Touches(ops[1], date, Morning)
      && (ops[0].UpsertOverride? <==> morning != [] && morning != EffectiveTemplateStaff(templates, start, date, Morning))
      && (ops[1].UpsertOverride? <==> afternoon != [] && afternoon != EffectiveTemplateStaff(templates, start, date, Afternoon))
      && (ops[0].UpsertOverride? ==> ops[0].staffName == morning)
      && (ops[1].UpsertOverride? ==> ops[1].staffName == afternoon)
  {
    match modalDate
    case None => []
    case Some(date) =>
      var morningTemplateName := EffectiveTemplateStaff(templates, start, date, Morning);
      var afternoonTemplateName := EffectiveTemplateStaff(templates, start, date, Afternoon);
      [ if morning != [] && morning != morningTemplateName then UpsertOverride(date, Morning, morning)
        else DeleteOverride(date, Morning),
        if afternoon != [] && afternoon != afternoonTemplateName then UpsertOverride(date, Afternoon, afternoon)
        else DeleteOverride(date, Afternoon) ]
  }

  /**
   * After the writes of a save, the day shows each proposed name, or the
   * template answer where the proposal was empty; no stored override repeats
   * the template answer; other days are untouched.
   */
  lemma SaveOverrideShowsProposal(templates: seq<TemplateRow>, overrides: seq<OverrideRow>, start: Option<Date>,
                                  date: Date, morning: string, afternoon: string)
    requires Valid(date) && ValidStart(start)
    ensures var after := ApplyOverrideOps(overrides, SaveOverrideOps(templates, start, Some(date), morning, afternoon));
      var shown := StaffForDate(templates, after, start, date);
      && shown.morning == (if morning != [] then morning else EffectiveTemplateStaff(templates, start, date, Morning))
      && shown.afternoon == (if afternoon != [] then afternoon else EffectiveTemplateStaff(templates, start, date, Afternoon))
      && (forall s :: FindOverride(after, date, s).Some? ==>
            var name := FindOverride(after, date, s).value.staffName;
            name != [] && name != EffectiveTemplateStaff(templates, start, date, s))
      && (forall d, s :: d != date ==> FindOverride(after, d, s) == FindOverride(overrides, d, s))
  {
    forall d, s
      ensures FindOverride(ApplyOverrideOps(overrides, SaveOverrideOps(templates, start, Some(date), morning, afternoon)), d, s) ==
        if d == date && s == Morning then ProposedOverride(templates, start, date, Morning, morning)
        else if d == date && s == Afternoon then ProposedOverride(templates, start, date, Afternoon, afternoon)
        else FindOverride(overrides, d, s)
    {
      SaveOverrideFinds(templates, overrides, start, date, morning, afternoon, d, s);
    }
    ShownProposal(templates, ApplyOverrideOps(overrides, SaveOverrideOps(templates, start, Some(date), morning, afternoon)),
                  start, date, morning, afternoon);
  }

  /** What the day shows when each shift's override is the proposed one. */
  lemma ShownProposal(templates: seq<TemplateRow>, after: seq<OverrideRow>, start: Option<Date>,
                      date: Date, morning: string, afternoon: string)
    requires Valid(date) && ValidStart(start)
    requires FindOverride(after, date, Morning) == ProposedOverride(templates, start, date, Morning, morning)
    requires FindOverride(after, date, Afternoon) == ProposedOverride(templates, start, date, Afternoon, afternoon)
    ensures var shown := StaffForDate(templates, after, start, date);
      && shown.morning == (if morning != [] then morning else EffectiveTemplateStaff(templates, start, date, Morning))
      && shown.afternoon == (if afternoon != [] then afternoon else EffectiveTemplateStaff(templates, start, date, Afternoon))
      && (forall s :: FindOverride(after, date, s).Some? ==>
            var name := FindOverride(after, date, s).value.staffName;
            name != [] && name != EffectiveTemplateStaff(templates, start, date, s))
  {
    var tm := EffectiveTemplateStaff(templates, start, date, Morning);
    var ta := EffectiveTemplateStaff(templates, start, date, Afternoon);
    ShownShift(FindOverride(after, date, Morning), morning, tm, date, Morning);
    ShownShift(FindOverride(after, date, Afternoon), afternoon, ta, date, Afternoon);
    forall s | FindOverride(after, date, s).Some?
      ensures var name := FindOverride(after, date, s).value.staffName;
        name != [] && name != EffectiveTemplateStaff(templates, start, date, s)
    {
      match s
      case Morning =>
      case Afternoon =>
    }
  }

  /** One shift of the edited day: the shown name is the proposal or, when it is empty, the template answer. */
  lemma ShownShift(o: Option<OverrideRow>, name: string, template: string, date: Date, shift: Shift)
    requires o == if name != [] && name != template then Some(OverrideRow(date, shift, name)) else None
    ensures (if OverrideName(o) != [] then OverrideName(o) else template) == (if name != [] then name else template)
    ensures o.Some? ==> o.value.staffName != [] && o.value.staffName != template
  {
  }

  /** The override a save leaves for one shift of the edited day: the proposal, unless it is empty or the template answer. */
  function ProposedOverride(templates: seq<TemplateRow>, start: Option<Date>, date: Date, shift: Shift, name: string): Option<OverrideRow>
    requires Valid(date) && ValidStart(start)
  {
    if name != [] && name != EffectiveTemplateStaff(templates, start, date, shift) then Some(OverrideRow(date, shift, name))
    else None
  }

  lemma SaveOverrideFinds(templates: seq<TemplateRow>, overrides: seq<OverrideRow>, start: Option<Date>,
                          date: Date, morning: string, afternoon: string, d: Date, s: Shift)
    requires Valid(date) && ValidStart(start)
    ensures FindOverride(ApplyOverrideOps(overrides, SaveOverrideOps(templates, start, Some(date), morning, afternoon)), d, s) ==
      if d == date && s == Morning then ProposedOverride(templates, start, date, Morning, morning)
      else if d == date && s == Afternoon then ProposedOverride(templates, start, date, Afternoon, afternoon)
      else FindOverride(overrides, d, s)
  {
    var ops := SaveOverrideOps(templates, start, Some(date), morning, afternoon);
    var mid := ApplyOverrideOp(overrides, ops[0]);
    ApplyTwoOverrideOps(overrides, ops);
    FindAfterOp(overrides, ops[0], d, s);
    FindAfterOp(mid, ops[1], d, s);
  }

  lemma ApplyTwoOverrideOps(rows: seq<OverrideRow>, ops: seq<OverrideOp>)
    requires |ops| == 2
    ensures ApplyOverrideOps(rows, ops) == ApplyOverrideOp(ApplyOverrideOp(rows, ops[0]), ops[1])
  {
    var mid := ApplyOverrideOp(rows, ops[0]);
    assert ApplyOverrideOps(rows, ops) == ApplyOverrideOps(mid, ops[1..]);
    assert ops[1..][0] == ops[1] && ops[1..][1..] == [];
    assert ApplyOverrideOps(mid, ops[1..]) == ApplyOverrideOps(ApplyOverrideOp(mid, ops[1]), []);
  }

  /** `handleResetOverride`: deleting a date's overrides brings back the template answer for both shifts. */
  lemma ResetOverrideRestoresTemplate(templates: seq<TemplateRow>, overrides: seq<OverrideRow>, start: Option<Date>, date: Date)
    requires Valid(date) && ValidStart(start)
    ensures var after := ApplyOverrideOps(overrides, [DeleteOverridesOn(date)]);
      var shown := StaffForDate(templates, after, start, date);
      && !shown.hasOverride
      && shown.morning == EffectiveTemplateStaff(templates, start, date, Morning)
      && shown.afternoon == EffectiveTemplateStaff(templates, start, date, Afternoon)
      && (forall d, s :: d != date ==> FindOverride(after, d, s) == FindOverride(overrides, d, s))
  {
    var after := ApplyOverrideOp(overrides, DeleteOverridesOn(date));
    assert ApplyOverrideOps(overrides, [DeleteOverridesOn(date)]) == after;
    forall d, s ensures FindOverride(after, d, s) == if d == date then None else FindOverride(overrides, d, s) {
      FindAfterOp(overrides, DeleteOverridesOn(date), d, s);
    }
  }

  // ------------------------------------------------------- month navigation

  /** The month before (y, m): the running month count 12 * y + m goes down by one. */
  function PrevMonth(y: int, m: int): (r: (int, int))
    requires 0 <= m < 12
    ensures 0 <= r.1 < 12
    ensures 12 * r.0 + r.1 == 12 * y + m - 1
  {
    if m == 0 then (y - 1, 11) else (y, m - 1)
  }

  /** The month after (y, m): the running month count goes up by one. */
  function NextMonth(y: int, m: int): (r: (int, int))
    requires 0 <= m < 12
    ensures 0 <= r.1 < 12
    ensures 12 * r.0 + r.1 == 12 * y + m + 1
  {
    if m == 11 then (y + 1, 0) else (y, m + 1)
  }

  /** Going forward a month and back again returns to the same month, and the other way round. */
  lemma PrevNextRoundTrip(y: int, m: int)
    requires 0 <= m < 12
    ensures PrevMonth(NextMonth(y, m).0, NextMonth(y, m).1) == (y, m)
    ensures NextMonth(PrevMonth(y, m).0, PrevMonth(y, m).1) == (y, m)
  {
  }

  /** The page's `year`/`month` state and its navigation buttons. */
  class MonthView {
    var year: int
    var month: int

    ghost predicate Valid()
      reads this
    {
      0 <= month < 12
    }

    constructor (today: Date)
      requires Calendar.Valid(today)
      ensures Valid() && year == today.year && month == today.month
    {
      year, month := today.year, today.month;
    }

    /** `goToPrevMonth`. */
    method GoToPrevMonth()
      requires Valid()
      modifies this
      ensures Valid()
      ensures (year, month) == PrevMonth(old(year), old(month))
      ensures year == (if old(month) == 0 then old(year) - 1 else old(year))
    {
      if month == 0 {
        year, month := year - 1, 11;
      } else {
        month := month - 1;
      }
    }

    /** `goToNextMonth`. */
    method GoToNextMonth()
      requires Valid()
      modifies this
      ensures Valid()
      ensures (year, month) == NextMonth(old(year), old(month))
      ensures year == (if old(month) == 11 then old(year) + 1 else old(year))
    {
      if month == 11 {
        year, month := year + 1, 0;
      } else {
        month := month + 1;
      }
    }
  }

  /**
   * The calendar grid of a month: one empty cell per weekday before the 1st,
   * then the days 1 .. daysInMonth in order.
   */
  method CalendarCells(year: int, month: int) returns (cells: seq<Option<int>>)
    requires 0 <= month < 12
    ensures var lead, days := DayOfWeek(DayNumber(FirstOfMonth(year, month))), DaysInMonth(year, month);
      && |cells| == lead + days
      && (forall i :: 0 <= i < lead ==> cells[i].None?)
      && (forall d :: 1 <= d <= days ==> cells[lead + d - 1] == Some(d))
  {
    var firstDayOfMonth := DayOfWeek(DayNumber(FirstOfMonth(year, month)));
    var daysInMonth := DaysInMonth(year, month);
    cells := [];
    var i := 0;
    while i < firstDayOfMonth
      invariant 0 <= i <= firstDayOfMonth
      invariant |cells| == i
      invariant forall k :: 0 <= k < i ==> cells[k].None?
    {
      cells := cells + [None];
      i := i + 1;
    }
    var d := 1;
    while d <= daysInMonth
      invariant 1 <= d <= daysInMonth + 1
      invariant |cells| == firstDayOfMonth + d - 1
      invariant forall k :: 0 <= k < firstDayOfMonth ==> cells[k].None?
      invariant forall e :: 1 <= e < d ==> cells[firstDayOfMonth + e - 1] == Some(e)
    {
      cells := cells + [Some(d)];
      d := d + 1;
    }
  }
}
