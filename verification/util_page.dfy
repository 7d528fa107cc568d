/**
 * The inventory page of a branch: the counted quantity of each stock item,
 * the room and air-conditioner readings, the closing checklist and two free
 * notes, and the report text that the copy button assembles from them.
 */
module UtilPage {
  import opened Optional
  import opened Text
  import opened Rooms
  import opened Report

  /** A stock item of the branch catalogue. */
  datatype Item = Item(id: int, name: string)

  /** A checklist entry of the branch configuration, in `Object.entries` order. */
  datatype ChecklistEntry = ChecklistEntry(key: string, name: string)

  /** The branch configuration the page reads. */
  datatype Branch = Branch(name: string, inventory: seq<Item>, rooms: RoomConfigs, checklist: seq<ChecklistEntry>)

  /** Item id to counted quantity; -1 means "enough", not counted. */
  type Inventory = map<int, int>

  /** Checklist key to whether it is done. */
  type Checklist = map<string, bool>

  /** The page's state. */
  datatype PageState = PageState(
    inventory: Inventory,
    roomData: RoomData,
    checklist: Checklist,
    additionalNote: string,
    additionalChecklistNote: string)

  // ------------------------------------------------------------ initial state

  /** Every catalogue item starts at -1. */
  function InitialInventory(items: seq<Item>): (inv: Inventory)
    ensures inv.Keys == set it | it in items :: it.id
    ensures forall id :: id in inv ==> inv[id] == -1
  {
    map it | it in items :: it.id := -1
  }

  /** Every checklist entry starts unchecked. */
  function InitialChecklist(entries: seq<ChecklistEntry>): (cl: Checklist)
    ensures cl.Keys == set e | e in entries :: e.key
    ensures forall key :: key in cl ==> !cl[key]
  {
    map e | e in entries :: e.key := false
  }

  /** The state the page's effect sets up from the branch configuration. */
  function InitialState(b: Branch): (st: PageState)
    ensures st.inventory == InitialInventory(b.inventory)
    ensures st.roomData == InitialRooms(b.rooms)
    ensures st.checklist == InitialChecklist(b.checklist)
    ensures st.additionalNote == [] && st.additionalChecklistNote == []
  {
    PageState(InitialInventory(b.inventory), InitialRooms(b.rooms), InitialChecklist(b.checklist), "", "")
  }

  // -------------------------------------------------------------- quantities

  /** `prev[id]?.quantity || 0`: a missing entry reads as 0. */
  function QuantityOf(inv: Inventory, id: int): int {
    if id in inv then inv[id] else 0
  }

  /** `handleQuantityChange(id, change)`: add change, never going below -1. */
  function QuantityChange(inv: Inventory, id: int, change: int): (r: Inventory)
    ensures r.Keys == inv.Keys + {id}
    ensures forall other :: other in inv && other != id ==> r[other] == inv[other]
    ensures r[id] >= -1
    ensures QuantityOf(inv, id) + change >= -1 ==> r[id] == QuantityOf(inv, id) + change
    ensures QuantityOf(inv, id) + change < -1 ==> r[id] == -1
  {
    var q := QuantityOf(inv, id) + change;
    inv[id := if q < -1 then -1 else q]
  }

  /** The plus button undone by the minus button gives the inventory back. */
  lemma IncrementThenDecrement(inv: Inventory, id: int)
    requires id in inv && inv[id] >= -1
    ensures QuantityChange(QuantityChange(inv, id, 1), id, -1) == inv
  {
    var r := QuantityChange(QuantityChange(inv, id, 1), id, -1);
    assert r[id] == inv[id];
    assert r.Keys == inv.Keys;
  }

  /** The minus button on an uncounted or empty item leaves it at -1. */
  lemma DecrementAtFloor(inv: Inventory, id: int)
    requires QuantityOf(inv, id) <= 0
    ensures QuantityChange(inv, id, -1)[id] == -1
  {
  }

  /**
   * `handleSetQuantity(id, value)`: `parseInt(value, 10)`, -1 when that is
   * NaN and otherwise never below -1.
   */
  function SetQuantity(inv: Inventory, id: int, value: string): (r: Inventory)
    ensures r.Keys == inv.Keys + {id}
    ensures forall other :: other in inv && other != id ==> r[other] == inv[other]
    ensures r[id] >= -1
    ensures ParseInt(value).None? ==> r[id] == -1
    ensures ParseInt(value).Some? && ParseInt(value).value >= -1 ==> r[id] == ParseInt(value).value
    ensures ParseInt(value).Some? && ParseInt(value).value < -1 ==> r[id] == -1
  {
    match ParseInt(value)
    case None => inv[id := -1]
    case Some(n) => inv[id := if n < -1 then -1 else n]
  }

  /** Setting the decimal form of a quantity of at least -1 stores exactly that quantity. */
  lemma SetQuantityOfNumber(inv: Inventory, id: int, n: int)
    requires n >= -1
    ensures SetQuantity(inv, id, IntToString(n))[id] == n
  {
    ParseIntOfString(n);
  }

  /** A field cleared to white space stores -1. */
  lemma SetQuantityOfBlank(inv: Inventory, id: int, value: string)
    requires IsBlank(value)
    ensures SetQuantity(inv, id, value)[id] == -1
  {
    assert value[TextStart(value)..] == [];
  }

  // --------------------------------------------------------------- checklist

  /** `checklist[key]` is truthy. */
  predicate Checked(cl: Checklist, key: string) {
    key in cl && cl[key]
  }

  /** `handleChecklistChange(key)`: flip one entry; a missing one becomes checked. */
  function ChecklistChange(cl: Checklist, key: string): (r: Checklist)
    ensures r.Keys == cl.Keys + {key}
    ensures forall other :: other in cl && other != key ==> r[other] == cl[other]
    ensures Checked(r, key) <==> !Checked(cl, key)
  {
    cl[key := !Checked(cl, key)]
  }

  /** Flipping an entry twice gives the checklist back. */
  lemma ChecklistChangeTwice(cl: Checklist, key: string)
    requires key in cl
    ensures ChecklistChange(ChecklistChange(cl, key), key) == cl
  {
    var r := ChecklistChange(ChecklistChange(cl, key), key);
    assert r[key] == cl[key];
  }

  // ---------------------------------------------------------- inventory text

  const NoneCountedText: string := "재고 특이사항 없음.\n"
  const InventoryHeader: string := "현재 재고 현황:\n"

  /** The message the copy handler compares the inventory text against. */
  const NoneCountedMessage: string := "재고 특이사항 없습니다."

  /** An item the inventory counts: present with a quantity of at least 0. */
  predicate IsCounted(inv: Inventory, it: Item) {
    it.id in inv && inv[it.id] >= 0
  }

  /** The counted items, in catalogue order. */
  function Counted(items: seq<Item>, inv: Inventory): (r: seq<Item>)
    ensures |r| <= |items|
    ensures forall it :: it in r <==> it in items && IsCounted(inv, it)
  {
    if items == [] then []
    else (if IsCounted(inv, items[0]) then [items[0]] else []) + Counted(items[1..], inv)
  }

  /** The line of one counted item. */
  function CountLine(inv: Inventory, it: Item): string
    requires it.id in inv
  {
    it.name + ": " + IntToString(inv[it.id]) + "개"
  }

  function CountLines(inv: Inventory, items: seq<Item>): (r: seq<string>)
    requires forall it :: it in items ==> it.id in inv
    ensures |r| == |items|
    ensures forall k :: 0 <= k < |items| ==> r[k] == CountLine(inv, items[k])
  {
    seq(|items|, k requires 0 <= k < |items| => CountLine(inv, items[k]))
  }

  /**
   * `generateInventoryText`: nothing for an empty inventory, the "nothing to
   * report" line when no item is counted, and otherwise a header and one line
   * per counted item.
   */
  function InventoryText(items: seq<Item>, inv: Inventory): (r: string)
    ensures r == [] <==> |inv| == 0
    ensures |inv| != 0 && Counted(items, inv) == [] ==> r == NoneCountedText
    ensures |inv| != 0 && Counted(items, inv) != [] ==>
      r == InventoryHeader + Join(CountLines(inv, Counted(items, inv)), "\n") + "\n"
  {
    if |inv| == 0 then ""
    else
      var counted := Counted(items, inv);
      if counted == [] then NoneCountedText
      else InventoryHeader + Join(CountLines(inv, counted), "\n") + "\n"
  }

  /** The inventory text names every counted item with its quantity. */
  lemma InventoryListsCounted(items: seq<Item>, inv: Inventory, it: Item)
    requires it in items && IsCounted(inv, it)
    ensures Contains(InventoryText(items, inv), CountLine(inv, it))
  {
    var counted := Counted(items, inv);
    var k :| 0 <= k < |counted| && counted[k] == it;
    var lines := CountLines(inv, counted);
    var joined := Join(lines, "\n");
    assert it.id in inv.Keys;
    assert InventoryText(items, inv) == InventoryHeader + joined + "\n";
    AppendAssoc(InventoryHeader, joined, "\n");
    JoinHasPart(lines, "\n", k);
    ContainsExtended(joined, lines[k], "\n");
    ContainsPrepended(InventoryHeader, joined + "\n", lines[k]);
  }

  /** With the initial inventory no item is counted. */
  lemma InitialNothingCounted(items: seq<Item>)
    requires items != []
    ensures InventoryText(items, InitialInventory(items)) == NoneCountedText
  {
    var inv := InitialInventory(items);
    assert items[0].id in inv;
    if Counted(items, inv) != [] {
      assert Counted(items, inv)[0] in Counted(items, inv);
    }
  }

  /**
   * The inventory text never trims to the message the copy handler looks
   * for: the generator writes a different wording.
   */
  lemma InventoryTextIsNeverNoneMessage(items: seq<Item>, inv: Inventory)
    ensures Trim(InventoryText(items, inv)) != NoneCountedMessage
  {
    var r := InventoryText(items, inv);
    if r == NoneCountedText {
      TrimDropsTrailing("재고 특이사항 없음.", "\n");
      assert NoneCountedText == "재고 특이사항 없음." + "\n";
    } else if r != [] {
      assert r[0] == '현';
      TrimKeeps(r, 0);
      assert Trim(r)[0] == '현';
    }
  }

  /** The inventory text is blank exactly when it is empty. */
  lemma InventoryTextBlank(items: seq<Item>, inv: Inventory)
    ensures IsBlank(InventoryText(items, inv)) <==> |inv| == 0
  {
    var r := InventoryText(items, inv);
    if r != [] {
      assert r[0] == '재' || r[0] == '현';
      VisibleAt(r, 0);
    }
  }

  // ---------------------------------------------------------- searching

  /** `searchQuery && item.name.toLowerCase().includes(searchQuery.toLowerCase())`. */
  predicate Matches(it: Item, query: string) {
    query != [] && Contains(ToLower(it.name), ToLower(query))
  }

  /** `filteredItems`: the catalogue items that match the search query, in catalogue order. */
  function FilteredItems(items: seq<Item>, query: string): (r: seq<Item>)
    ensures query == [] ==> r == []
    ensures |r| <= |items|
  {
    if items == [] then []
    else (if Matches(items[0], query) then [items[0]] else []) + FilteredItems(items[1..], query)
  }

  /** An item is listed exactly when it is in the catalogue and matches the query. */
  lemma {:induction false} FilteredItemsMembers(items: seq<Item>, query: string, it: Item)
    ensures it in FilteredItems(items, query) <==> it in items && Matches(it, query)
  {
    if items != [] {
      FilteredItemsMembers(items[1..], query, it);
      assert it in items <==> it == items[0] || it in items[1..];
    }
  }

  lemma FilteredItemsCons(x: Item, rest: seq<Item>, query: string)
    ensures FilteredItems([x] + rest, query) == (if Matches(x, query) then [x] else []) + FilteredItems(rest, query)
  {
    assert ([x] + rest)[0] == x && ([x] + rest)[1..] == rest;
  }

  /** Filtering a concatenation filters each part and keeps their order. */
  lemma {:induction false} FilteredItemsAppend(a: seq<Item>, b: seq<Item>, query: string)
    ensures FilteredItems(a + b, query) == FilteredItems(a, query) + FilteredItems(b, query)
  {
    if a == [] {
      assert a + b == b;
    } else {
      var x, rest := a[0], a[1..];
      var kept := if Matches(x, query) then [x] else [];
      calc {
        FilteredItems(a + b, query);
      == { assert a + b == [x] + (rest + b); FilteredItemsCons(x, rest + b, query); }
        kept + FilteredItems(rest + b, query);
      == { FilteredItemsAppend(rest, b, query); }
        kept + (FilteredItems(rest, query) + FilteredItems(b, query));
      == { AppendAssoc(kept, FilteredItems(rest, query), FilteredItems(b, query)); }
        kept + FilteredItems(rest, query) + FilteredItems(b, query);
      == { assert a == [x] + rest; FilteredItemsCons(x, rest, query); }
        FilteredItems(a, query) + FilteredItems(b, query);
      }
    }
  }

  /** Searching for an item's own name finds it. */
  lemma SearchFindsOwnName(items: seq<Item>, it: Item)
    requires it in items && it.name != []
    ensures it in FilteredItems(items, it.name)
  {
    ContainsPiece([], ToLower(it.name), []);
    assert [] + ToLower(it.name) + [] == ToLower(it.name);
    FilteredItemsMembers(items, it.name, it);
  }

  /** The search ignores the letter case of the query. */
  lemma SearchIgnoresCase(items: seq<Item>, query: string)
    ensures FilteredItems(items, ToLower(query)) == FilteredItems(items, query)
  {
    ToLowerIdempotent(query);
    FilteredSameMatches(items, ToLower(query), query);
  }

  lemma {:induction false} FilteredSameMatches(items: seq<Item>, q1: string, q2: string)
    requires forall it :: Matches(it, q1) <==> Matches(it, q2)
    ensures FilteredItems(items, q1) == FilteredItems(items, q2)
  {
    if items != [] {
      FilteredSameMatches(items[1..], q1, q2);
    }
  }

  // --------------------------------------------------------------- room text

  /** The text so far with a room's reading line, chosen by which readings are set. */
  function WithRoomLine(text: string, name: string, s: RoomState): string {
    if s.temperature != [] && s.humidity != [] then
      text + ("\n" + name + " 온도 " + s.temperature + "℃, 습도 " + s.humidity + "% 입니다.\n")
    else if s.temperature != [] then text + ("\n" + name + " 온도 " + s.temperature + "℃ 입니다.\n")
    else if s.humidity != [] then text + ("\n" + name + " 습도 " + s.humidity + "% 입니다.\n")
    else text
  }

  /** An air conditioner the report mentions: its mode is set and is not `off`. */
  predicate AcOn(ac: AcState) {
    ac.mode != [] && ac.mode != "off"
  }

  /**
   * The text so far with the line of one air conditioner that is on: its
   * mode label, then its temperature and its reservation when they are set.
   */
  function WithAcLine(text: string, name: string, ac: AcState): string {
    if AcOn(ac) then
      var head := text + ("- " + name + " " + ac.location + " 에어컨: " + ModeText(ac.mode));
      var withTemperature := if ac.temperature != [] then head + (", " + ac.temperature + "℃") else head;
      var withReservation := if ac.reservation != [] then withTemperature + (", " + ac.reservation + "시간 예약") else withTemperature;
      withReservation + "\n"
    else text
  }

  function WithAcLines(text: string, name: string, acs: seq<AcState>): string {
    if acs == [] then text
    else WithAcLine(WithAcLines(text, name, acs[..|acs| - 1]), name, acs[|acs| - 1])
  }

  /** The text so far with one configured room's reading line and air-conditioner lines. */
  function WithRoom(text: string, c: RoomConfigs, data: RoomData, id: string): string {
    var name, s := RoomName(c, id), RoomOf(data, id);
    WithAcLines(WithRoomLine(text, name, s), name, s.airConditioners)
  }

  function WithRooms(text: string, c: RoomConfigs, data: RoomData, ids: seq<string>): string {
    if ids == [] then text
    else WithRoom(WithRooms(text, c, data, ids[..|ids| - 1]), c, data, ids[|ids| - 1])
  }

  /** One line per checked entry, in configuration order. */
  function ChecklistText(entries: seq<ChecklistEntry>, cl: Checklist): string {
    if entries == [] then ""
    else
      var done := ChecklistText(entries[..|entries| - 1], cl);
      var e := entries[|entries| - 1];
      if Checked(cl, e.key) then done + ("\n- " + e.name + " 완료") else done
  }

  /** The room text before it is trimmed: the rooms, the checked entries and the note. */
  function RawRoomText(b: Branch, st: PageState): string {
    var rooms := WithRooms("", b.rooms, st.roomData, b.rooms.ids);
    var checks := ChecklistText(b.checklist, st.checklist);
    var withChecks := if checks != [] then rooms + checks else rooms;
    if !IsBlank(st.additionalChecklistNote) then withChecks + ("\n추가 사항:\n" + st.additionalChecklistNote)
    else withChecks
  }

  /** What `generateRoomText` returns: the trimmed text and a newline, or nothing. */
  function RoomReport(b: Branch, st: PageState): string {
    var t := Trim(RawRoomText(b, st));
    if t != [] then t + "\n" else ""
  }

  /** `generateRoomText`: the rooms in configuration order, then the checklist, then the note. */
  method GenerateRoomText(b: Branch, st: PageState) returns (text: string)
    ensures text == RoomReport(b, st)
  {
    text := "";
    var ids := b.rooms.ids;
    var i := 0;
    while i < |ids|
      invariant 0 <= i <= |ids|
      invariant text == WithRooms("", b.rooms, st.roomData, ids[..i])
    {
      text := AppendRoom(text, b.rooms, st.roomData, ids[i]);
      WithRoomsStep("", b.rooms, st.roomData, ids, i);
      i := i + 1;
    }
    assert ids[..i] == ids;

    var checklistText := "";
    var k := 0;
    while k < |b.checklist|
      invariant 0 <= k <= |b.checklist|
      invariant checklistText == ChecklistText(b.checklist[..k], st.checklist)
    {
      var entry := b.checklist[k];
      if Checked(st.checklist, entry.key) {
        checklistText := checklistText + ("\n- " + entry.name + " 완료");
      }
      assert b.checklist[..k + 1][..k] == b.checklist[..k];
      k := k + 1;
    }
    assert b.checklist[..k] == b.checklist;
    if checklistText != [] {
      text := text + checklistText;
    }
    if !IsBlank(st.additionalChecklistNote) {
      text := text + ("\n추가 사항:\n" + st.additionalChecklistNote);
    }
    var trimmed := Trim(text);
    text := if trimmed != [] then trimmed + "\n" else "";
  }

  /** The `forEach` callback over the rooms: one room's line and its air conditioners' lines appended to text. */
  method AppendRoom(text: string, rooms: RoomConfigs, data: RoomData, roomId: string) returns (r: string)
    ensures r == WithRoom(text, rooms, data, roomId)
  {
    r := text;
    var room := RoomOf(data, roomId);
    var roomName := RoomName(rooms, roomId);
    if room.temperature != [] && room.humidity != [] {
      r := r + ("\n" + roomName + " 온도 " + room.temperature + "℃, 습도 " + room.humidity + "% 입니다.\n");
    } else if room.temperature != [] {
      r := r + ("\n" + roomName + " 온도 " + room.temperature + "℃ 입니다.\n");
    } else if room.humidity != [] {
      r := r + ("\n" + roomName + " 습도 " + room.humidity + "% 입니다.\n");
    }
    ghost var withLine := r;
    assert withLine == WithRoomLine(text, roomName, room);
    var acs := room.airConditioners;
    var j := 0;
    while j < |acs|
      invariant 0 <= j <= |acs|
      invariant r == WithAcLines(withLine, roomName, acs[..j])
    {
      r := AppendAcLine(r, roomName, acs[j]);
      WithAcLinesStep(withLine, roomName, acs, j);
      j := j + 1;
    }
    assert acs[..j] == acs;
  }

  /** The `forEach` callback over a room's air conditioners: the line of one that is on, appended to text. */
  method AppendAcLine(text: string, roomName: string, ac: AcState) returns (r: string)
    ensures r == WithAcLine(text, roomName, ac)
  {
    r := text;
    if ac.mode != [] && ac.mode != "off" {
      r := r + ("- " + roomName + " " + ac.location + " 에어컨: " + ModeText(ac.mode));
      if ac.temperature != [] {
        r := r + (", " + ac.temperature + "℃");
      }
      if ac.reservation != [] {
        r := r + (", " + ac.reservation + "시간 예약");
      }
      r := r + "\n";
    }
  }

  lemma WithAcLinesStep(text: string, name: string, acs: seq<AcState>, j: nat)
    requires j < |acs|
    ensures WithAcLines(text, name, acs[..j + 1]) == WithAcLine(WithAcLines(text, name, acs[..j]), name, acs[j])
  {
    assert acs[..j + 1][..j] == acs[..j];
  }

  lemma WithRoomsStep(text: string, c: RoomConfigs, data: RoomData, ids: seq<string>, i: nat)
    requires i < |ids|
    ensures WithRooms(text, c, data, ids[..i + 1]) == WithRoom(WithRooms(text, c, data, ids[..i]), c, data, ids[i])
  {
    assert ids[..i + 1][..i] == ids[..i];
  }

  // ------------------------------------------------------ when it is empty

  /** A room with no reading set and no air conditioner on. */
  predicate RoomIsQuiet(s: RoomState) {
    s.temperature == [] && s.humidity == []
    && forall k :: 0 <= k < |s.airConditioners| ==> !AcOn(s.airConditioners[k])
  }

  /** Nothing the room text could report: quiet rooms, no checked entry, a blank note. */
  predicate NothingToReport(b: Branch, st: PageState) {
    && (forall i :: 0 <= i < |b.rooms.ids| ==> RoomIsQuiet(RoomOf(st.roomData, b.rooms.ids[i])))
    && (forall k :: 0 <= k < |b.checklist| ==> !Checked(st.checklist, b.checklist[k].key))
    && IsBlank(st.additionalChecklistNote)
  }

  /** A reading line is added exactly when a reading is set, and it is never blank. */
  lemma WithRoomLineBlank(text: string, name: string, s: RoomState)
    ensures IsBlank(WithRoomLine(text, name, s)) <==> IsBlank(text) && s.temperature == [] && s.humidity == []
  {
    var r := WithRoomLine(text, name, s);
    if s.temperature != [] || s.humidity != [] {
      assert r[|r| - 2] == '.';
      VisibleAt(r, |r| - 2);
    }
  }

  /** An air-conditioner line is added exactly when it is on, and it is never blank. */
  lemma WithAcLineBlank(text: string, name: string, ac: AcState)
    ensures IsBlank(WithAcLine(text, name, ac)) <==> IsBlank(text) && !AcOn(ac)
  {
    if AcOn(ac) {
      var head := text + ("- " + name + " " + ac.location + " 에어컨: " + ModeText(ac.mode));
      assert head[|text|] == '-';
      var withTemperature := if ac.temperature != [] then head + (", " + ac.temperature + "℃") else head;
      assert withTemperature[|text|] == '-';
      var withReservation := if ac.reservation != [] then withTemperature + (", " + ac.reservation + "시간 예약") else withTemperature;
      assert withReservation[|text|] == '-';
      assert WithAcLine(text, name, ac) == withReservation + "\n";
      VisibleAt(withReservation + "\n", |text|);
    }
  }

  lemma {:induction false} WithAcLinesBlank(text: string, name: string, acs: seq<AcState>)
    ensures IsBlank(WithAcLines(text, name, acs)) <==> IsBlank(text) && forall k :: 0 <= k < |acs| ==> !AcOn(acs[k])
  {
    if acs != [] {
      var n := |acs| - 1;
      WithAcLinesBlank(text, name, acs[..n]);
      WithAcLineBlank(WithAcLines(text, name, acs[..n]), name, acs[n]);
      assert forall k :: 0 <= k < n ==> acs[..n][k] == acs[k];
    }
  }

  lemma WithRoomBlank(text: string, c: RoomConfigs, data: RoomData, id: string)
    ensures IsBlank(WithRoom(text, c, data, id)) <==> IsBlank(text) && RoomIsQuiet(RoomOf(data, id))
  {
    var name, s := RoomName(c, id), RoomOf(data, id);
    WithRoomLineBlank(text, name, s);
    WithAcLinesBlank(WithRoomLine(text, name, s), name, s.airConditioners);
  }

  lemma {:induction false} WithRoomsBlank(text: string, c: RoomConfigs, data: RoomData, ids: seq<string>)
    ensures IsBlank(WithRooms(text, c, data, ids)) <==>
      IsBlank(text) && forall i :: 0 <= i < |ids| ==> RoomIsQuiet(RoomOf(data, ids[i]))
  {
    if ids != [] {
      var n := |ids| - 1;
      WithRoomsBlank(text, c, data, ids[..n]);
      WithRoomBlank(WithRooms(text, c, data, ids[..n]), c, data, ids[n]);
      assert forall i :: 0 <= i < n ==> ids[..n][i] == ids[i];
    }
  }

  lemma {:induction false} ChecklistTextBlank(entries: seq<ChecklistEntry>, cl: Checklist)
    ensures IsBlank(ChecklistText(entries, cl)) <==> forall k :: 0 <= k < |entries| ==> !Checked(cl, entries[k].key)
  {
    if entries != [] {
      var n := |entries| - 1;
      var done := ChecklistText(entries[..n], cl);
      ChecklistTextBlank(entries[..n], cl);
      if Checked(cl, entries[n].key) {
        var r := done + ("\n- " + entries[n].name + " 완료");
        assert r[|done| + 1] == '-';
        VisibleAt(r, |done| + 1);
      }
      assert forall k :: 0 <= k < n ==> entries[..n][k] == entries[k];
    }
  }

  /** The room text is empty exactly when there is nothing to report. */
  lemma RoomReportEmpty(b: Branch, st: PageState)
    ensures RoomReport(b, st) == [] <==> NothingToReport(b, st)
  {
    var rooms := WithRooms("", b.rooms, st.roomData, b.rooms.ids);
    var checks := ChecklistText(b.checklist, st.checklist);
    var withChecks := if checks != [] then rooms + checks else rooms;
    var note := st.additionalChecklistNote;
    WithRoomsBlank("", b.rooms, st.roomData, b.rooms.ids);
    ChecklistTextBlank(b.checklist, st.checklist);
    BlankAppend(rooms, checks);
    if !IsBlank(note) {
      var added := "\n추가 사항:\n" + note;
      assert added[1] == '추';
      VisibleAt(added, 1);
      BlankAppend(withChecks, added);
    }
  }

  /** A room text that is not empty is not blank either. */
  lemma RoomReportVisible(b: Branch, st: PageState)
    ensures IsBlank(RoomReport(b, st)) <==> RoomReport(b, st) == []
  {
    var r := RoomReport(b, st);
    if r != [] {
      VisibleAt(r, 0);
    }
  }

  // ------------------------------------------------------------------ report

  /**
   * The report before it is trimmed: the first line, the inventory text
   * (with the copy handler's check against the "nothing to report" message
   * as written), the inventory note and the room text.
   */
  function ReportText(b: Branch, st: PageState): string {
    var header := Header(b.name);
    var invText := InventoryText(b.inventory, st.inventory);
    var note := st.additionalNote;
    var withInventory :=
      if Trim(invText) != NoneCountedMessage then header + invText
      else if IsBlank(note) then header + (NoneCountedMessage + "\n")
      else header;
    var withNote := if !IsBlank(note) then withInventory + ("\n재고 관련 추가 사항:\n" + note + "\n") else withInventory;
    var roomText := RoomReport(b, st);
    if !IsBlank(roomText) then withNote + ("\n" + roomText) else withNote
  }

  /** `handleCopyButtonClick`: assemble the report and copy it, or alert when there is nothing in it. */
  method CopyButtonClick(b: Branch, st: PageState) returns (copied: Option<string>)
    ensures copied == CopyOutcome(b.name, ReportText(b, st))
  {
    var reportText := b.name + " 입니다.\n\n";
    var invText := InventoryText(b.inventory, st.inventory);
    if Trim(invText) != NoneCountedMessage {
      reportText := reportText + invText;
    } else if IsBlank(st.additionalNote) {
      reportText := reportText + (NoneCountedMessage + "\n");
    }
    if !IsBlank(st.additionalNote) {
      reportText := reportText + ("\n재고 관련 추가 사항:\n" + st.additionalNote + "\n");
    }
    var roomReportText := GenerateRoomText(b, st);
    if !IsBlank(roomReportText) {
      reportText := reportText + ("\n" + roomReportText);
    }
    if Trim(reportText) == b.name + " 입니다." {
      return None;
    }
    return Some(Trim(reportText));
  }

  /** The report always starts with its first line and the inventory text: the other branch of the check is never taken. */
  lemma InventoryAlwaysReported(b: Branch, st: PageState)
    ensures Header(b.name) + InventoryText(b.inventory, st.inventory) <= ReportText(b, st)
  {
    var withInventory := Header(b.name) + InventoryText(b.inventory, st.inventory);
    InventoryTextIsNeverNoneMessage(b.inventory, st.inventory);
    var note, roomText := st.additionalNote, RoomReport(b, st);
    var withNote := withInventory;
    if !IsBlank(note) {
      withNote := withInventory + ("\n재고 관련 추가 사항:\n" + note + "\n");
      AppendBlankAfter(withInventory, 0, "\n재고 관련 추가 사항:\n" + note + "\n");
    }
    var report := withNote;
    if !IsBlank(roomText) {
      report := withNote + ("\n" + roomText);
      AppendBlankAfter(withNote, 0, "\n" + roomText);
    }
    assert report == ReportText(b, st);
  }

  /**
   * The page alerts instead of copying exactly when the inventory is empty,
   * the inventory note is blank and the room text has nothing to report.
   */
  lemma NothingToCopy(b: Branch, st: PageState)
    requires b.name != [] && !IsWhitespace(b.name[0])
    ensures CopyOutcome(b.name, ReportText(b, st)).None? <==>
      |st.inventory| == 0 && IsBlank(st.additionalNote) && NothingToReport(b, st)
  {
    var h := Header(b.name);
    var invText := InventoryText(b.inventory, st.inventory);
    var note := st.additionalNote;
    var roomText := RoomReport(b, st);
    InventoryTextIsNeverNoneMessage(b.inventory, st.inventory);
    var withInventory := h + invText;
    var withNote := if !IsBlank(note) then withInventory + ("\n재고 관련 추가 사항:\n" + note + "\n") else withInventory;
    var report := if !IsBlank(roomText) then withNote + ("\n" + roomText) else withNote;
    assert report == ReportText(b, st);
    ReportBlankAfterHeader(h, invText, note, roomText);
    AlertsExactlyWhenEmpty(b.name, report);
    InventoryTextBlank(b.inventory, st.inventory);
    RoomReportVisible(b, st);
    RoomReportEmpty(b, st);
  }

  /** Past the first line, the report is blank exactly when each of its parts is. */
  lemma ReportBlankAfterHeader(h: string, invText: string, note: string, roomText: string)
    ensures
      var withInventory := h + invText;
      var withNote := if !IsBlank(note) then withInventory + ("\n재고 관련 추가 사항:\n" + note + "\n") else withInventory;
      var report := if !IsBlank(roomText) then withNote + ("\n" + roomText) else withNote;
      h <= report && (BlankAfter(report, |h|) <==> IsBlank(invText) && IsBlank(note) && IsBlank(roomText))
  {
    var withInventory := h + invText;
    var withNote := if !IsBlank(note) then withInventory + ("\n재고 관련 추가 사항:\n" + note + "\n") else withInventory;
    var report := if !IsBlank(roomText) then withNote + ("\n" + roomText) else withNote;
    var noteText := "\n재고 관련 추가 사항:\n" + note + "\n";
    AppendBlankAfter(h, |h|, invText);
    if !IsBlank(note) {
      assert noteText[1] == '재';
      VisibleAt(noteText, 1);
      AppendBlankAfter(withInventory, |h|, noteText);
    }
    if !IsBlank(roomText) {
      BlankAppend("\n", roomText);
      AppendBlankAfter(withNote, |h|, "\n" + roomText);
    }
  }
}
