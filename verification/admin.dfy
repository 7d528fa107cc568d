/**
 * The admin page's weekly template editor. The stored templates are a map
 * from (weekday, shift, week type) to a staff name; the editor keeps a
 * local draft of that map plus a per-cell "biweekly" flag, and saving turns
 * the draft into a batch of upserts and deletes against the stored map.
 */
module Admin {
  import opened Optional
  import opened Text
  import opened Schedule

  /** A template key: `makeKey(day, shift, weekType)`. */
  datatype Key = Key(day: int, shift: Shift, weekType: WeekType)

  /** A (weekday, shift) cell of the editor grid: the biweekly map's key `${day}_${shift}`. */
  datatype Cell = Cell(day: int, shift: Shift)

  function CellOf(k: Key): Cell {
    Cell(k.day, k.shift)
  }

  function KeyIn(c: Cell, wt: WeekType): Key {
    Key(c.day, c.shift, wt)
  }

  // ------------------------------------------------------------ string keys

  function ShiftName(s: Shift): string {
    match s
    case Morning => "morning"
    case Afternoon => "afternoon"
  }

  function WeekTypeName(wt: WeekType): string {
    match wt
    case A => "A"
    case B => "B"
    case Every => "every"
  }

  /** `makeKey`: the string `${day}_${shift}_${weekType}` that keys the JavaScript objects. */
  function MakeKey(k: Key): string {
    IntToString(k.day) + "_" + (ShiftName(k.shift) + "_" + WeekTypeName(k.weekType))
  }

  /** Index of the first underscore in s (|s| when there is none). */
  function FirstSeparator(s: string): (i: nat)
    ensures i <= |s|
  {
    if s == [] || s[0] == '_' then 0 else 1 + FirstSeparator(s[1..])
  }

  lemma {:induction false} FirstSeparatorAt(a: string, b: string)
    requires '_' !in a
    ensures FirstSeparator(a + "_" + b) == |a|
  {
    if a != [] {
      assert (a + "_" + b)[1..] == a[1..] + "_" + b;
      FirstSeparatorAt(a[1..], b);
    }
  }

  /** Splitting at the first underscore recovers both halves. */
  lemma SplitAtSeparator(a: string, b: string, c: string, d: string)
    requires '_' !in a && '_' !in c
    requires a + "_" + b == c + "_" + d
    ensures a == c && b == d
  {
    FirstSeparatorAt(a, b);
    FirstSeparatorAt(c, d);
    var s := a + "_" + b;
    assert a == s[..|a|];
    assert c == s[..|c|];
    assert b == s[|a| + 1..];
    assert d == s[|c| + 1..];
  }

  lemma NoSeparatorInNumber(n: int)
    ensures '_' !in IntToString(n)
  {
    var s := IntToString(n);
    forall i | 0 <= i < |s| ensures s[i] != '_' {
      if n < 0 && i > 0 {
        assert s[i] == s[1..][i - 1];
      }
    }
  }

  /** Distinct keys have distinct strings, so a map keyed by Key is the JavaScript object keyed by makeKey. */
  lemma MakeKeyInjective(k1: Key, k2: Key)
    requires MakeKey(k1) == MakeKey(k2)
    ensures k1 == k2
  {
    NoSeparatorInNumber(k1.day);
    NoSeparatorInNumber(k2.day);
    SplitAtSeparator(IntToString(k1.day), ShiftName(k1.shift) + "_" + WeekTypeName(k1.weekType),
                     IntToString(k2.day), ShiftName(k2.shift) + "_" + WeekTypeName(k2.weekType));
    IntToStringInjective(k1.day, k2.day);
    SplitAtSeparator(ShiftName(k1.shift), WeekTypeName(k1.weekType), ShiftName(k2.shift), WeekTypeName(k2.weekType));
  }

  // ------------------------------------------------------------------ maps

  type Assignments = map<Key, string>
  type Modes = map<Cell, bool>

  /** `m[k] || ''`: the name under k, empty when there is none. */
  function Get(m: Assignments, k: Key): string {
    if k in m then m[k] else ""
  }

  function Entry(m: Assignments, k: Key): Option<string> {
    if k in m then Some(m[k]) else None
  }

  /** `biweeklyShifts[bwKey]` is truthy. */
  predicate IsBiweekly(modes: Modes, c: Cell) {
    c in modes && modes[c]
  }

  /** No stored name is the empty string. */
  predicate NoBlank(m: Assignments) {
    forall k :: k in m ==> m[k] != ""
  }

  function KeyOfRow(t: TemplateRow): Key {
    Key(t.dayOfWeek, t.shift, t.weekType)
  }

  /** The assignments map built from template rows: every row under its key, a later row winning. */
  function AssignmentsOf(rows: seq<TemplateRow>): (r: Assignments)
    ensures forall k :: k in r <==> exists i :: 0 <= i < |rows| && KeyOfRow(rows[i]) == k
  {
    if rows == [] then map[]
    else
      var init := rows[..|rows| - 1];
      var last := rows[|rows| - 1];
      var r := AssignmentsOf(init)[KeyOfRow(last) := last.staffName];
      assert forall i :: 0 <= i < |init| ==> init[i] == rows[i];
      assert KeyOfRow(rows[|rows| - 1]) == KeyOfRow(last);
      r
  }

  /** A row that no later row overrides is the one whose name the map holds. */
  lemma {:induction false} LastRowWins(rows: seq<TemplateRow>, i: int)
    requires 0 <= i < |rows|
    requires forall j :: i < j < |rows| ==> KeyOfRow(rows[j]) != KeyOfRow(rows[i])
    ensures Get(AssignmentsOf(rows), KeyOfRow(rows[i])) == rows[i].staffName
    ensures KeyOfRow(rows[i]) in AssignmentsOf(rows)
  {
    var init := rows[..|rows| - 1];
    if i < |rows| - 1 {
      assert init[i] == rows[i];
      forall j | i < j < |init|
        ensures KeyOfRow(init[j]) != KeyOfRow(init[i])
      {
        assert init[j] == rows[j];
      }
      LastRowWins(init, i);
    }
  }

  /** The biweekly map built from template rows: a cell is marked when some row for it is an A or B row. */
  function BiweeklyOf(rows: seq<TemplateRow>): (r: Modes)
    ensures forall c :: c in r ==> r[c]
    ensures forall c :: c in r <==> exists i :: 0 <= i < |rows| && CellOf(KeyOfRow(rows[i])) == c && rows[i].weekType != Every
  {
    if rows == [] then map[]
    else
      var init := rows[..|rows| - 1];
      var last := rows[|rows| - 1];
      assert forall i :: 0 <= i < |init| ==> init[i] == rows[i];
      if last.weekType == A || last.weekType == B then
        BiweeklyOf(init)[CellOf(KeyOfRow(last)) := true]
      else
        BiweeklyOf(init)
  }

  /** `buildAssignmentsMap`. */
  method BuildAssignmentsMap(templates: seq<TemplateRow>) returns (m: Assignments)
    ensures m == AssignmentsOf(templates)
  {
    m := map[];
    var i := 0;
    while i < |templates|
      invariant 0 <= i <= |templates|
      invariant m == AssignmentsOf(templates[..i])
    {
      var t := templates[i];
      assert templates[..i + 1][..i] == templates[..i];
      m := m[KeyOfRow(t) := t.staffName];
      i := i + 1;
    }
    assert templates[..i] == templates;
  }

  /** `buildBiweeklyMap`. */
  method BuildBiweeklyMap(templates: seq<TemplateRow>) returns (m: Modes)
    ensures m == BiweeklyOf(templates)
  {
    m := map[];
    var i := 0;
    while i < |templates|
      invariant 0 <= i <= |templates|
      invariant m == BiweeklyOf(templates[..i])
    {
      var t := templates[i];
      assert templates[..i + 1][..i] == templates[..i];
      if t.weekType == A || t.weekType == B {
        m := m[CellOf(KeyOfRow(t)) := true];
      }
      i := i + 1;
    }
    assert templates[..i] == templates;
  }

  /** The modes a stored map implies: a cell is biweekly when it has an A or a B entry. */
  function ModesOf(t: Assignments): (r: Modes)
    ensures forall c :: c in r ==> r[c]
    ensures forall c :: c in r <==> KeyIn(c, A) in t || KeyIn(c, B) in t
  {
    var cells := set k | k in t && k.weekType != Every :: CellOf(k);
    assert forall c :: KeyIn(c, A) in t ==> CellOf(KeyIn(c, A)) in cells;
    assert forall c :: KeyIn(c, B) in t ==> CellOf(KeyIn(c, B)) in cells;
    map c | c in cells :: true
  }

  /** The two maps built from the same rows agree: the biweekly map is the modes of the assignments map. */
  lemma BiweeklyIsModesOfAssignments(rows: seq<TemplateRow>)
    ensures BiweeklyOf(rows) == ModesOf(AssignmentsOf(rows))
  {
    var bw, md := BiweeklyOf(rows), ModesOf(AssignmentsOf(rows));
    forall c ensures c in bw <==> c in md {
      BiweeklyCell(rows, c);
    }
    SameMarkedCells(bw, md);
  }

  /** Two maps that mark cells only with true are equal when they mark the same cells. */
  lemma SameMarkedCells(m1: Modes, m2: Modes)
    requires forall c :: c in m1 ==> m1[c]
    requires forall c :: c in m2 ==> m2[c]
    requires forall c :: c in m1 <==> c in m2
    ensures m1 == m2
  {
  }

  lemma BiweeklyCell(rows: seq<TemplateRow>, c: Cell)
    ensures c in BiweeklyOf(rows) <==> KeyIn(c, A) in AssignmentsOf(rows) || KeyIn(c, B) in AssignmentsOf(rows)
  {
    var asg := AssignmentsOf(rows);
    if c in BiweeklyOf(rows) {
      var i :| 0 <= i < |rows| && CellOf(KeyOfRow(rows[i])) == c && rows[i].weekType != Every;
      assert KeyOfRow(rows[i]) in asg;
      assert KeyOfRow(rows[i]) == KeyIn(c, rows[i].weekType);
    }
    if KeyIn(c, A) in asg {
      var i :| 0 <= i < |rows| && KeyOfRow(rows[i]) == KeyIn(c, A);
      assert CellOf(KeyOfRow(rows[i])) == c;
    }
    if KeyIn(c, B) in asg {
      var i :| 0 <= i < |rows| && KeyOfRow(rows[i]) == KeyIn(c, B);
      assert CellOf(KeyOfRow(rows[i])) == c;
    }
  }

  // ----------------------------------------------------------- local edits

  /** `handleLocalChange`: set the key for a non-empty name, remove it for an empty one. */
  function LocalChanged(local: Assignments, k: Key, name: string): (r: Assignments)
    ensures name != "" ==> k in r && r[k] == name
    ensures name == "" ==> k !in r
    ensures forall j :: j != k ==> Entry(r, j) == Entry(local, j)
  {
    if name != "" then local[k := name] else local - {k}
  }

  /**
   * `handleToggleBiweekly` on the draft: biweekly to every moves the A name
   * to `every` and drops A and B; every to biweekly moves the `every` name
   * to A, drops `every` and leaves B alone.
   */
  function ToggledLocal(local: Assignments, modes: Modes, c: Cell): (r: Assignments)
    ensures IsBiweekly(modes, c) ==>
      && KeyIn(c, A) !in r && KeyIn(c, B) !in r
      && (Get(local, KeyIn(c, A)) != "" ==> Entry(r, KeyIn(c, Every)) == Some(Get(local, KeyIn(c, A))))
      && (Get(local, KeyIn(c, A)) == "" ==> Entry(r, KeyIn(c, Every)) == Entry(local, KeyIn(c, Every)))
    ensures !IsBiweekly(modes, c) ==>
      && KeyIn(c, Every) !in r
      && (Get(local, KeyIn(c, Every)) != "" ==> Entry(r, KeyIn(c, A)) == Some(Get(local, KeyIn(c, Every))))
      && (Get(local, KeyIn(c, Every)) == "" ==> Entry(r, KeyIn(c, A)) == Entry(local, KeyIn(c, A)))
      && Entry(r, KeyIn(c, B)) == Entry(local, KeyIn(c, B))
    ensures forall k :: CellOf(k) != c ==> Entry(r, k) == Entry(local, k)
  {
    if IsBiweekly(modes, c) then
      var aVal := Get(local, KeyIn(c, A));
      var next := local - {KeyIn(c, A), KeyIn(c, B)};
      if aVal != "" then next[KeyIn(c, Every) := aVal] else next
    else
      var everyVal := Get(local, KeyIn(c, Every));
      var next := local - {KeyIn(c, Every)};
      if everyVal != "" then next[KeyIn(c, A) := everyVal] else next
  }

  /** The flag after a toggle: explicitly false or true, never removed. */
  function ToggledModes(modes: Modes, c: Cell): (r: Modes)
    ensures c in r && r[c] == !IsBiweekly(modes, c)
    ensures forall d :: d != c ==> (d in r <==> d in modes) && (d in modes ==> r[d] == modes[d])
  {
    modes[c := !IsBiweekly(modes, c)]
  }

  /**
   * Toggling a biweekly cell to every and back keeps the A name but loses
   * the B name.
   */
  lemma ToggleTwiceLosesB(local: Assignments, modes: Modes, c: Cell)
    requires IsBiweekly(modes, c)
    requires Get(local, KeyIn(c, A)) != ""
    ensures var l1, m1 := ToggledLocal(local, modes, c), ToggledModes(modes, c);
      var l2, m2 := ToggledLocal(l1, m1, c), ToggledModes(m1, c);
      && IsBiweekly(m2, c)
      && Get(l2, KeyIn(c, A)) == Get(local, KeyIn(c, A))
      && KeyIn(c, B) !in l2
      && KeyIn(c, Every) !in l2
      && forall k :: CellOf(k) != c ==> Entry(l2, k) == Entry(local, k)
  {
  }

  /** Toggling an every cell to biweekly and back keeps the every name and clears A and B. */
  lemma ToggleTwiceKeepsEvery(local: Assignments, modes: Modes, c: Cell)
    requires !IsBiweekly(modes, c)
    requires Get(local, KeyIn(c, Every)) != ""
    ensures var l1, m1 := ToggledLocal(local, modes, c), ToggledModes(modes, c);
      var l2, m2 := ToggledLocal(l1, m1, c), ToggledModes(m1, c);
      && !IsBiweekly(m2, c)
      && Get(l2, KeyIn(c, Every)) == Get(local, KeyIn(c, Every))
      && KeyIn(c, A) !in l2
      && KeyIn(c, B) !in l2
  {
  }

  // ------------------------------------------------------------ save plan

  /** A write to `schedule_templates`; upserts conflict on the key. */
  datatype TemplateOp = Upsert(key: Key, name: string) | Delete(key: Key)

  function ApplyOp(db: Assignments, op: TemplateOp): Assignments {
    match op
    case Upsert(k, name) => db[k := name]
    case Delete(k) => db - {k}
  }

  /** The stored map after the writes, in order. */
  function ApplyOps(db: Assignments, ops: seq<TemplateOp>): Assignments
    decreases |ops|
  {
    if ops == [] then db else ApplyOps(ApplyOp(db, ops[0]), ops[1..])
  }

  /** A single write for k that brings k from the stored name to the draft name, when they differ. */
  function WeekOp(saved: Assignments, local: Assignments, k: Key): (ops: seq<TemplateOp>)
    ensures |ops| <= 1
    ensures ops == [] <==> Get(local, k) == Get(saved, k)
  {
    var localVal, savedVal := Get(local, k), Get(saved, k);
    if localVal != savedVal then
      (if localVal != "" then [Upsert(k, localVal)] else [Delete(k)])
    else []
  }

  /** A delete for k when the stored map holds a name for it. */
  function DeleteIfSaved(saved: Assignments, k: Key): (ops: seq<TemplateOp>)
    ensures |ops| <= 1
    ensures ops != [] ==> ops == [Delete(k)]
  {
    if Get(saved, k) != "" then [Delete(k)] else []
  }

  /** The writes for one cell, in the order `handleSaveAll` pushes them. */
  function CellOps(saved: Assignments, local: Assignments, modes: Modes, c: Cell): seq<TemplateOp> {
    if IsBiweekly(modes, c) then
      DeleteIfSaved(saved, KeyIn(c, Every)) + WeekOp(saved, local, KeyIn(c, A)) + WeekOp(saved, local, KeyIn(c, B))
    else
      DeleteIfSaved(saved, KeyIn(c, A)) + DeleteIfSaved(saved, KeyIn(c, B)) + WeekOp(saved, local, KeyIn(c, Every))
  }

  /** The shifts of a day, in the order the save loops over them. */
  const Shifts: seq<Shift> := [Morning, Afternoon]

  /** The writes for the first j shifts of a day. */
  function ShiftsOps(saved: Assignments, local: Assignments, modes: Modes, day: int, j: int): seq<TemplateOp>
    requires 0 <= j <= |Shifts|
  {
    if j == 0 then [] else ShiftsOps(saved, local, modes, day, j - 1) + CellOps(saved, local, modes, Cell(day, Shifts[j - 1]))
  }

  /** The writes for one day, morning before afternoon. */
  function DayOps(saved: Assignments, local: Assignments, modes: Modes, day: int): seq<TemplateOp> {
    CellOps(saved, local, modes, Cell(day, Morning)) + CellOps(saved, local, modes, Cell(day, Afternoon))
  }

  /** The writes for days 0 .. d-1, in day order. */
  function DaysOps(saved: Assignments, local: Assignments, modes: Modes, d: int): seq<TemplateOp>
    decreases d
  {
    if d <= 0 then [] else DaysOps(saved, local, modes, d - 1) + DayOps(saved, local, modes, d - 1)
  }

  function GridOps(saved: Assignments, local: Assignments, modes: Modes): seq<TemplateOp> {
    DaysOps(saved, local, modes, 7)
  }

  /** The body of `handleSaveAll`'s shift loop: the writes for one cell, A before B. */
  method CellWrites(saved: Assignments, local: Assignments, modes: Modes, c: Cell) returns (ops: seq<TemplateOp>)
    ensures ops == CellOps(saved, local, modes, c)
  {
    var wts := [A, B];
    if IsBiweekly(modes, c) {
      ops := DeleteIfSaved(saved, KeyIn(c, Every));
      var w := 0;
      while w < 2
        invariant 0 <= w <= 2
        invariant w >= 1 ==> ops == DeleteIfSaved(saved, KeyIn(c, Every)) + WeekOp(saved, local, KeyIn(c, A))
                                  + (if w == 2 then WeekOp(saved, local, KeyIn(c, B)) else [])
        invariant w == 0 ==> ops == DeleteIfSaved(saved, KeyIn(c, Every))
      {
        ops := ops + WeekOp(saved, local, KeyIn(c, wts[w]));
        w := w + 1;
      }
    } else {
      ops := [];
      var w := 0;
      while w < 2
        invariant 0 <= w <= 2
        invariant w >= 1 ==> ops == DeleteIfSaved(saved, KeyIn(c, A))
                                  + (if w == 2 then DeleteIfSaved(saved, KeyIn(c, B)) else [])
        invariant w == 0 ==> ops == []
      {
        ops := ops + DeleteIfSaved(saved, KeyIn(c, wts[w]));
        w := w + 1;
      }
      ops := ops + WeekOp(saved, local, KeyIn(c, Every));
    }
  }

  /** `handleSaveAll`: the batch of writes, built by the page's nested day and shift loops. */
  method SaveOps(saved: Assignments, local: Assignments, modes: Modes) returns (ops: seq<TemplateOp>)
    ensures ops == GridOps(saved, local, modes)
  {
    ops := [];
    var day := 0;
    while day < 7
      invariant 0 <= day <= 7
      invariant ops == DaysOps(saved, local, modes, day)
    {
      var dayOps := DayWrites(saved, local, modes, day);
      assert DaysOps(saved, local, modes, day + 1) == DaysOps(saved, local, modes, day) + dayOps;
      ops := ops + dayOps;
      day := day + 1;
    }
  }

  /** The body of `handleSaveAll`'s day loop: the shift loop over morning and afternoon. */
  method DayWrites(saved: Assignments, local: Assignments, modes: Modes, day: int) returns (ops: seq<TemplateOp>)
    ensures ops == DayOps(saved, local, modes, day)
  {
    ops := [];
    var j := 0;
    while j < |Shifts|
      invariant 0 <= j <= |Shifts|
      invariant ops == ShiftsOps(saved, local, modes, day, j)
    {
      var cellOps := CellWrites(saved, local, modes, Cell(day, Shifts[j]));
      assert ShiftsOps(saved, local, modes, day, j + 1) == ShiftsOps(saved, local, modes, day, j) + cellOps;
      ops := ops + cellOps;
      j := j + 1;
    }
    ShiftsOpsOfDay(saved, local, modes, day);
  }

  lemma ShiftsOpsOfDay(saved: Assignments, local: Assignments, modes: Modes, day: int)
    ensures ShiftsOps(saved, local, modes, day, |Shifts|) == DayOps(saved, local, modes, day)
  {
    assert ShiftsOps(saved, local, modes, day, 1) == CellOps(saved, local, modes, Cell(day, Morning));
  }

  // ---------------------------------------------------- what a save does

  /** A key is in its cell's mode when it is an A/B key of a biweekly cell or the every key of an every cell. */
  predicate InMode(modes: Modes, k: Key) {
    IsBiweekly(modes, CellOf(k)) <==> k.weekType != Every
  }

  /** The entry under k after one write, starting from entry e. */
  function OpEntry(e: Option<string>, op: TemplateOp, k: Key): Option<string> {
    if op.key != k then e
    else match op
      case Upsert(_, name) => Some(name)
      case Delete(_) => None
  }

  /** The entry under k after the writes, starting from entry e. */
  function EntryAfter(e: Option<string>, ops: seq<TemplateOp>, k: Key): Option<string>
    decreases |ops|
  {
    if ops == [] then e else EntryAfter(OpEntry(e, ops[0], k), ops[1..], k)
  }

  /** Applying writes to a map acts on each key separately. */
  lemma {:induction false} EntryOfApply(db: Assignments, ops: seq<TemplateOp>, k: Key)
    ensures Entry(ApplyOps(db, ops), k) == EntryAfter(Entry(db, k), ops, k)
    decreases |ops|
  {
    if ops != [] {
      EntryOfApply(ApplyOp(db, ops[0]), ops[1..], k);
    }
  }

  lemma {:induction false} EntryAfterConcat(e: Option<string>, x: seq<TemplateOp>, y: seq<TemplateOp>, k: Key)
    ensures EntryAfter(e, x + y, k) == EntryAfter(EntryAfter(e, x, k), y, k)
    decreases |x|
  {
    if x == [] {
      assert x + y == y;
    } else {
      assert (x + y)[1..] == x[1..] + y;
      EntryAfterConcat(OpEntry(e, x[0], k), x[1..], y, k);
    }
  }

  lemma EntryAfterSingle(e: Option<string>, ops: seq<TemplateOp>, k: Key)
    requires |ops| <= 1
    ensures EntryAfter(e, ops, k) == if ops == [] then e else OpEntry(e, ops[0], k)
  {
    if ops != [] {
      assert ops[1..] == [];
    }
  }

  /** The entry a save leaves under a key of the week grid. */
  function SaveOutcome(saved: Assignments, local: Assignments, modes: Modes, k: Key): (r: Option<string>)
    ensures r.GetOr("") == if InMode(modes, k) then Get(local, k) else ""
    ensures r == Some("") ==> Entry(saved, k) == Some("")
  {
    var localVal, savedVal := Get(local, k), Get(saved, k);
    if InMode(modes, k) then
      if localVal != savedVal then (if localVal != "" then Some(localVal) else None) else Entry(saved, k)
    else if savedVal != "" then None
    else Entry(saved, k)
  }

  /** The key of a cell with a given week type. */
  lemma KeyOfCell(c: Cell, k: Key)
    requires CellOf(k) == c
    ensures k == KeyIn(c, A) || k == KeyIn(c, B) || k == KeyIn(c, Every)
  {
    match k.weekType
    case A => assert k == KeyIn(c, A);
    case B => assert k == KeyIn(c, B);
    case Every => assert k == KeyIn(c, Every);
  }

  lemma WeekOpAt(saved: Assignments, local: Assignments, q: Key, e: Option<string>, k: Key)
    ensures EntryAfter(e, WeekOp(saved, local, q), k) ==
      if k != q || Get(local, q) == Get(saved, q) then e
      else if Get(local, q) != "" then Some(Get(local, q))
      else None
  {
    EntryAfterSingle(e, WeekOp(saved, local, q), k);
  }

  lemma DeleteIfSavedAt(saved: Assignments, q: Key, e: Option<string>, k: Key)
    ensures EntryAfter(e, DeleteIfSaved(saved, q), k) == if k != q || Get(saved, q) == "" then e else None
  {
    EntryAfterSingle(e, DeleteIfSaved(saved, q), k);
  }

  /** A cell's writes decide the entries of the cell's keys and leave every other key alone. */
  lemma CellOpsAt(saved: Assignments, local: Assignments, modes: Modes, c: Cell, e: Option<string>, k: Key)
    ensures CellOf(k) != c ==> EntryAfter(e, CellOps(saved, local, modes, c), k) == e
    ensures CellOf(k) == c && e == Entry(saved, k) ==>
      EntryAfter(e, CellOps(saved, local, modes, c), k) == SaveOutcome(saved, local, modes, k)
  {
    var kA, kB, kE := KeyIn(c, A), KeyIn(c, B), KeyIn(c, Every);
    var p1, p2, p3;
    if IsBiweekly(modes, c) {
      p1, p2, p3 := DeleteIfSaved(saved, kE), WeekOp(saved, local, kA), WeekOp(saved, local, kB);
      DeleteIfSavedAt(saved, kE, e, k);
      WeekOpAt(saved, local, kA, EntryAfter(e, p1, k), k);
      WeekOpAt(saved, local, kB, EntryAfter(EntryAfter(e, p1, k), p2, k), k);
    } else {
      p1, p2, p3 := DeleteIfSaved(saved, kA), DeleteIfSaved(saved, kB), WeekOp(saved, local, kE);
      DeleteIfSavedAt(saved, kA, e, k);
      DeleteIfSavedAt(saved, kB, EntryAfter(e, p1, k), k);
      WeekOpAt(saved, local, kE, EntryAfter(EntryAfter(e, p1, k), p2, k), k);
    }
    assert CellOps(saved, local, modes, c) == p1 + p2 + p3;
    EntryAfterConcat(e, p1 + p2, p3, k);
    EntryAfterConcat(e, p1, p2, k);
    if CellOf(k) == c {
      KeyOfCell(c, k);
    }
  }

  /** Every write for days 0 .. d-1 is for a key of one of those days; the entries are those of a save. */
  lemma {:induction false} DaysOpsAt(saved: Assignments, local: Assignments, modes: Modes, d: int, k: Key)
    requires 0 <= d <= 7
    ensures EntryAfter(Entry(saved, k), DaysOps(saved, local, modes, d), k) ==
      if 0 <= k.day < d then SaveOutcome(saved, local, modes, k) else Entry(saved, k)
  {
    if d > 0 {
      DaysOpsAt(saved, local, modes, d - 1, k);
      var x := DaysOps(saved, local, modes, d - 1);
      var cm, ca := Cell(d - 1, Morning), Cell(d - 1, Afternoon);
      var pm, pa := CellOps(saved, local, modes, cm), CellOps(saved, local, modes, ca);
      var e0 := Entry(saved, k);
      EntryAfterConcat(e0, x, pm + pa, k);
      var e1 := EntryAfter(e0, x, k);
      EntryAfterConcat(e1, pm, pa, k);
      var e2 := EntryAfter(e1, pm, k);
      CellOpsAt(saved, local, modes, cm, e1, k);
      CellOpsAt(saved, local, modes, ca, e2, k);
      assert DaysOps(saved, local, modes, d) == x + (pm + pa);
      if k.day == d - 1 {
        if k.shift == Morning {
          assert CellOf(k) == cm && CellOf(k) != ca;
        } else {
          assert CellOf(k) == ca && CellOf(k) != cm;
        }
      } else {
        assert CellOf(k) != cm && CellOf(k) != ca;
      }
    }
  }

  lemma SaveAllAt(saved: Assignments, local: Assignments, modes: Modes, k: Key)
    ensures Entry(ApplyOps(saved, GridOps(saved, local, modes)), k) ==
      if 0 <= k.day < 7 then SaveOutcome(saved, local, modes, k) else Entry(saved, k)
  {
    EntryOfApply(saved, GridOps(saved, local, modes), k);
    DaysOpsAt(saved, local, modes, 7, k);
  }

  /** The stored value every key is expected to have after a save. */
  function SavedGet(saved: Assignments, local: Assignments, modes: Modes, k: Key): string {
    if 0 <= k.day < 7 then (if InMode(modes, k) then Get(local, k) else "") else Get(saved, k)
  }

  /**
   * The result of a save: every key of the grid ends up with the draft name
   * when it is in its cell's mode and with no name otherwise; keys outside
   * days 0 .. 6 keep their stored entry; and a store without empty names
   * stays without them, so a key of the other mode is then absent.
   */
  lemma SaveAllResult(saved: Assignments, local: Assignments, modes: Modes)
    ensures var r := ApplyOps(saved, GridOps(saved, local, modes));
      && (forall k :: Get(r, k) == SavedGet(saved, local, modes, k))
      && (forall k: Key :: !(0 <= k.day < 7) ==> Entry(r, k) == Entry(saved, k))
      && (NoBlank(saved) ==> NoBlank(r) && forall k: Key :: 0 <= k.day < 7 && !InMode(modes, k) ==> k !in r)
  {
    var r := ApplyOps(saved, GridOps(saved, local, modes));
    forall k
      ensures Entry(r, k) == if 0 <= k.day < 7 then SaveOutcome(saved, local, modes, k) else Entry(saved, k)
    {
      SaveAllAt(saved, local, modes, k);
    }
    OutcomeFacts(saved, local, modes, r);
  }

  /** What the per-key outcome of a save says about names and empty entries. */
  lemma OutcomeFacts(saved: Assignments, local: Assignments, modes: Modes, r: Assignments)
    requires forall k :: Entry(r, k) == if 0 <= k.day < 7 then SaveOutcome(saved, local, modes, k) else Entry(saved, k)
    ensures forall k :: Get(r, k) == SavedGet(saved, local, modes, k)
    ensures NoBlank(saved) ==> NoBlank(r) && forall k: Key :: 0 <= k.day < 7 && !InMode(modes, k) ==> k !in r
  {
    forall k ensures Get(r, k) == SavedGet(saved, local, modes, k) {
      assert Get(r, k) == Entry(r, k).GetOr("");
    }
    if NoBlank(saved) {
      forall k | k in r ensures r[k] != "" {
        assert Entry(r, k) == Some(r[k]);
      }
    }
  }

  /** The writes of a save and the stored map they leave behind. */
  method Commit(saved: Assignments, local: Assignments, modes: Modes) returns (ops: seq<TemplateOp>, db: Assignments)
    ensures ops == GridOps(saved, local, modes) && db == ApplyOps(saved, ops)
  {
    ops := SaveOps(saved, local, modes);
    db := ApplyOps(saved, ops);
  }

  /** No cell of the week grid has both an every name and an A or B entry. */
  ghost predicate NoMixInGrid(saved: Assignments) {
    forall c: Cell :: 0 <= c.day < 7 && (KeyIn(c, A) in saved || KeyIn(c, B) in saved) ==> Get(saved, KeyIn(c, Every)) == ""
  }

  lemma {:induction false} DaysOpsUnchanged(saved: Assignments, d: int)
    requires NoMixInGrid(saved)
    requires 0 <= d <= 7
    ensures DaysOps(saved, saved, ModesOf(saved), d) == []
  {
    if d > 0 {
      DaysOpsUnchanged(saved, d - 1);
    }
  }

  /**
   * With the draft equal to the stored map and the modes those it implies
   * (what discarding changes gives), a save writes nothing, provided no
   * stored cell mixes every with A/B.
   */
  lemma SaveAfterDiscardIsEmpty(saved: Assignments)
    requires NoMixInGrid(saved)
    ensures GridOps(saved, saved, ModesOf(saved)) == []
  {
    DaysOpsUnchanged(saved, 7);
  }

  /** Saving again right after a save (and the reload it triggers) writes nothing. */
  lemma SaveTwiceWritesOnce(saved: Assignments, local: Assignments, modes: Modes)
    requires NoBlank(saved)
    ensures var r := ApplyOps(saved, GridOps(saved, local, modes));
      GridOps(r, r, ModesOf(r)) == []
  {
    var r := ApplyOps(saved, GridOps(saved, local, modes));
    SaveAllResult(saved, local, modes);
    NoMixAfterSave(saved, local, modes, r);
    SaveAfterDiscardIsEmpty(r);
  }

  /** After a save from a store without empty names, no cell of the grid mixes every with A/B. */
  lemma NoMixAfterSave(saved: Assignments, local: Assignments, modes: Modes, r: Assignments)
    requires forall k :: Get(r, k) == SavedGet(saved, local, modes, k)
    requires NoBlank(r)
    ensures NoMixInGrid(r)
  {
    forall c: Cell | 0 <= c.day < 7 && (KeyIn(c, A) in r || KeyIn(c, B) in r)
      ensures Get(r, KeyIn(c, Every)) == ""
    {
      if KeyIn(c, A) in r {
        assert Get(r, KeyIn(c, A)) != "";
        assert InMode(modes, KeyIn(c, A));
      } else {
        assert Get(r, KeyIn(c, B)) != "";
        assert InMode(modes, KeyIn(c, B));
      }
    }
  }

  // ------------------------------------------------------------ the editor

  /** The editor's state: the stored maps as last loaded and the draft. */
  class TemplateEditor {
    var savedAssignments: Assignments
    var savedBiweeklyShifts: Modes
    var localAssignments: Assignments
    var biweeklyShifts: Modes

    /** The stored flags are the ones the stored map implies. */
    ghost predicate Valid()
      reads this
    {
      savedBiweeklyShifts == ModesOf(savedAssignments)
    }

    /** `fetchScheduleTemplates` on first load: saved and draft both from the rows. */
    constructor Load(rows: seq<TemplateRow>)
      ensures Valid()
      ensures savedAssignments == AssignmentsOf(rows) && savedBiweeklyShifts == BiweeklyOf(rows)
      ensures localAssignments == savedAssignments && biweeklyShifts == savedBiweeklyShifts
    {
      var assignments := BuildAssignmentsMap(rows);
      var bwMap := BuildBiweeklyMap(rows);
      BiweeklyIsModesOfAssignments(rows);
      savedAssignments, savedBiweeklyShifts := assignments, bwMap;
      localAssignments, biweeklyShifts := assignments, bwMap;
    }

    /** `hasChanges`: the draft or the flags differ from what was loaded. */
    predicate HasChanges()
      reads this
    {
      localAssignments != savedAssignments || biweeklyShifts != savedBiweeklyShifts
    }

    /** `handleLocalChange`. */
    method LocalChange(day: int, shift: Shift, staffName: string, weekType: WeekType)
      modifies this
      ensures localAssignments == LocalChanged(old(localAssignments), Key(day, shift, weekType), staffName)
      ensures savedAssignments == old(savedAssignments) && savedBiweeklyShifts == old(savedBiweeklyShifts)
      ensures biweeklyShifts == old(biweeklyShifts)
    {
      var key := Key(day, shift, weekType);
      var next := localAssignments;
      if staffName != "" {
        next := next[key := staffName];
      } else {
        next := next - {key};
      }
      localAssignments := next;
    }

    /** `handleToggleBiweekly`. */
    method ToggleBiweekly(dayIndex: int, shift: Shift)
      modifies this
      ensures localAssignments == ToggledLocal(old(localAssignments), old(biweeklyShifts), Cell(dayIndex, shift))
      ensures biweeklyShifts == ToggledModes(old(biweeklyShifts), Cell(dayIndex, shift))
      ensures savedAssignments == old(savedAssignments) && savedBiweeklyShifts == old(savedBiweeklyShifts)
    {
      var bwKey := Cell(dayIndex, shift);
      var isBiweekly := IsBiweekly(biweeklyShifts, bwKey);
      if isBiweekly {
        var aKey, bKey, everyKey := KeyIn(bwKey, A), KeyIn(bwKey, B), KeyIn(bwKey, Every);
        var aVal := Get(localAssignments, aKey);
        var next := localAssignments - {aKey, bKey};
        if aVal != "" {
          next := next[everyKey := aVal];
        }
        localAssignments := next;
        biweeklyShifts := biweeklyShifts[bwKey := false];
      } else {
        var everyKey, aKey := KeyIn(bwKey, Every), KeyIn(bwKey, A);
        var everyVal := Get(localAssignments, everyKey);
        var next := localAssignments - {everyKey};
        if everyVal != "" {
          next := next[aKey := everyVal];
        }
        localAssignments := next;
        biweeklyShifts := biweeklyShifts[bwKey := true];
      }
    }

    /** `handleDiscardChanges`: the draft goes back to what was loaded. */
    method DiscardChanges()
      requires Valid()
      modifies this
      ensures Valid() && !HasChanges()
      ensures localAssignments == savedAssignments && biweeklyShifts == ModesOf(savedAssignments)
      ensures savedAssignments == old(savedAssignments) && savedBiweeklyShifts == old(savedBiweeklyShifts)
    {
      localAssignments := savedAssignments;
      biweeklyShifts := savedBiweeklyShifts;
    }

    /**
     * `handleSaveAll` followed by the reload it triggers: the writes are
     * applied to the stored map, and the draft and flags are reset to it.
     */
    method SaveAll() returns (ops: seq<TemplateOp>)
      requires Valid()
      modifies this
      ensures ops == GridOps(old(savedAssignments), old(localAssignments), old(biweeklyShifts))
      ensures savedAssignments == ApplyOps(old(savedAssignments), ops)
      ensures Valid() && !HasChanges()
    {
      var db;
      ops, db := Commit(savedAssignments, localAssignments, biweeklyShifts);
      Reload(db);
    }

    /** `fetchScheduleTemplates` after a save: saved and draft both become the stored map. */
    method Reload(db: Assignments)
      modifies this
      ensures savedAssignments == db && Valid() && !HasChanges()
    {
      var flags := ModesOf(db);
      savedAssignments, savedBiweeklyShifts := db, flags;
      localAssignments, biweeklyShifts := db, flags;
    }
  }
}
