/**
 * The temperature report page of a branch: one line per configured room
 * with its temperature and humidity (a dash when a reading is missing),
 * followed by the air conditioners that are not off, and the report the
 * copy button assembles from all rooms and a free note.
 */
module TemperatureReport {
  import opened Optional
  import opened Text
  import opened Rooms
  import opened Report

  /** The branch configuration the page reads. */
  datatype Branch = Branch(name: string, rooms: RoomConfigs)

  /** The page's state. */
  datatype PageState = PageState(roomData: RoomData, additionalChecklistNote: string)

  /** The state the page's effect sets up from the branch configuration. */
  function InitialState(b: Branch): (st: PageState)
    ensures st.roomData.Keys == set id | id in b.rooms.ids
    ensures forall id :: id in st.roomData ==> st.roomData[id] == InitialRoom(ConfigOf(b.rooms, id))
    ensures st.additionalChecklistNote == []
  {
    PageState(InitialRooms(b.rooms), "")
  }

  // --------------------------------------------------------------- room text

  /** `value || '-'`. */
  function OrDash(value: string): (r: string)
    ensures r != []
    ensures value != [] ==> r == value
    ensures value == [] ==> r == "-"
  {
    if value != [] then value else "-"
  }

  /** A room's reading line, always present. */
  function RoomLine(name: string, s: RoomState): (r: string)
    ensures name + " 온도: " <= r
    ensures |r| > |name| + 1 && r[|name| + 1] == '온'
  {
    name + " 온도: " + OrDash(s.temperature) + "°C, 습도: " + OrDash(s.humidity) + "% 입니다."
  }

  /** The reading line shows the temperature in °C and the humidity in %, each a dash when missing. */
  lemma RoomLineReadings(name: string, s: RoomState)
    ensures Contains(RoomLine(name, s), " 온도: " + OrDash(s.temperature) + "°C")
    ensures Contains(RoomLine(name, s), "습도: " + OrDash(s.humidity) + "%")
  {
    var t, h := OrDash(s.temperature), OrDash(s.humidity);
    ContainsPiece(name, " 온도: " + t + "°C", ", 습도: " + h + "% 입니다.");
    assert RoomLine(name, s) == name + (" 온도: " + t + "°C") + (", 습도: " + h + "% 입니다.");
    ContainsPiece(name + " 온도: " + t + "°C, ", "습도: " + h + "%", " 입니다.");
    assert RoomLine(name, s) == name + " 온도: " + t + "°C, " + ("습도: " + h + "%") + " 입니다.";
  }

  /**
   * The entry of one air conditioner: None when it is off (the `null` that
   * `filter(Boolean)` drops); otherwise its location and mode label, its
   * temperature unless it is only fanning, and its reservation.
   */
  function AcText(ac: AcState): (r: Option<string>)
    ensures r.None? <==> ac.mode == "off"
    ensures r.Some? ==> ac.location + " " + ModeText(ac.mode) <= r.value
  {
    if ac.mode == "off" then None
    else
      var head := ac.location + " " + ModeText(ac.mode);
      var withTemperature := if ac.temperature != [] && ac.mode != "fan" then head + (" " + ac.temperature + "°C") else head;
      Some(if ac.reservation != [] then withTemperature + (" (" + ac.reservation + "시간 예약)") else withTemperature)
  }

  /** An entry is never empty, so `filter(Boolean)` drops only the air conditioners that are off. */
  lemma AcTextNotEmpty(ac: AcState)
    requires ac.mode != "off"
    ensures AcText(ac).Some? && AcText(ac).value != []
  {
    assert |ac.location + " " + ModeText(ac.mode)| > 0;
  }

  /** A fanning air conditioner's entry does not depend on its temperature. */
  lemma FanIgnoresTemperature(ac: AcState, temperature: string)
    requires ac.mode == "fan"
    ensures AcText(ac.(temperature := temperature)) == AcText(ac)
  {
  }

  /** An air conditioner that is cooling, drying or heating shows a set temperature. */
  lemma TemperatureShown(ac: AcState)
    requires ac.mode != "off" && ac.mode != "fan" && ac.temperature != []
    ensures Contains(AcText(ac).value, " " + ac.temperature + "°C")
  {
    var head := ac.location + " " + ModeText(ac.mode);
    var t := " " + ac.temperature + "°C";
    var tail := if ac.reservation != [] then " (" + ac.reservation + "시간 예약)" else "";
    ContainsPiece(head, t, tail);
    assert AcText(ac).value == head + t + tail;
  }

  /** An air conditioner that is not off shows its reservation, in hours, when it has one. */
  lemma ReservationShown(ac: AcState)
    requires ac.mode != "off" && ac.reservation != []
    ensures Contains(AcText(ac).value, " (" + ac.reservation + "시간 예약)")
  {
    var head := ac.location + " " + ModeText(ac.mode);
    var withTemperature := if ac.temperature != [] && ac.mode != "fan" then head + (" " + ac.temperature + "°C") else head;
    var t := " (" + ac.reservation + "시간 예약)";
    ContainsPiece(withTemperature, t, []);
    assert AcText(ac).value == withTemperature + t + [];
  }

  /** What `filter(Boolean)` keeps of one air conditioner's entry. */
  function Kept(ac: AcState): (r: seq<string>)
    ensures |r| <= 1
    ensures r == [] <==> ac.mode == "off"
  {
    match AcText(ac)
    case None => []
    case Some(t) => [t]
  }

  /** The entries of the air conditioners that are not off, in their order. */
  function AcTexts(acs: seq<AcState>): (r: seq<string>)
    ensures |r| <= |acs|
  {
    if acs == [] then [] else Kept(acs[0]) + AcTexts(acs[1..])
  }

  /** There is no entry exactly when every air conditioner is off. */
  lemma {:induction false} AcTextsEmpty(acs: seq<AcState>)
    ensures AcTexts(acs) == [] <==> forall k :: 0 <= k < |acs| ==> acs[k].mode == "off"
  {
    if acs != [] {
      AcTextsEmpty(acs[1..]);
      assert forall k :: 1 <= k < |acs| ==> acs[k] == acs[1..][k - 1];
      if acs[0].mode == "off" {
        assert AcTexts(acs) == [] + AcTexts(acs[1..]);
      }
    }
  }

  /** The entry of every air conditioner that is not off is among the entries. */
  lemma {:induction false} AcTextsHas(acs: seq<AcState>, k: nat)
    requires k < |acs| && acs[k].mode != "off"
    ensures exists j :: 0 <= j < |AcTexts(acs)| && AcTexts(acs)[j] == AcText(acs[k]).value
  {
    if k == 0 {
      assert AcTexts(acs)[0] == AcText(acs[0]).value;
    } else {
      AcTextsHas(acs[1..], k - 1);
      var j :| 0 <= j < |AcTexts(acs[1..])| && AcTexts(acs[1..])[j] == AcText(acs[1..][k - 1]).value;
      var kept := Kept(acs[0]);
      assert AcTexts(acs) == kept + AcTexts(acs[1..]);
      assert AcTexts(acs)[|kept| + j] == AcText(acs[k]).value;
    }
  }

  lemma AcTextsCons(ac: AcState, rest: seq<AcState>)
    ensures AcTexts([ac] + rest) == Kept(ac) + AcTexts(rest)
  {
    assert ([ac] + rest)[0] == ac && ([ac] + rest)[1..] == rest;
  }

  /** The entries of two runs of air conditioners are the entries of each, in order. */
  lemma {:induction false} AcTextsAppend(a: seq<AcState>, b: seq<AcState>)
    ensures AcTexts(a + b) == AcTexts(a) + AcTexts(b)
  {
    if a == [] {
      assert a + b == b;
    } else {
      var x, rest := a[0], a[1..];
      calc {
        AcTexts(a + b);
      == { assert a + b == [x] + (rest + b); AcTextsCons(x, rest + b); }
        Kept(x) + AcTexts(rest + b);
      == { AcTextsAppend(rest, b); }
        Kept(x) + (AcTexts(rest) + AcTexts(b));
      == { AppendAssoc(Kept(x), AcTexts(rest), AcTexts(b)); }
        Kept(x) + AcTexts(rest) + AcTexts(b);
      == { assert a == [x] + rest; AcTextsCons(x, rest); }
        AcTexts(a) + AcTexts(b);
      }
    }
  }

  /**
   * `generateRoomText(roomId)` as a value: the reading line, then the
   * entries of the air conditioners that are not off when there are any.
   */
  function RoomText(c: RoomConfigs, data: RoomData, id: string): (r: string)
    ensures RoomLine(RoomName(c, id), RoomOf(data, id)) <= r
    ensures |r| > |RoomName(c, id)| + 1 && r[|RoomName(c, id)| + 1] == '온'
  {
    var room := RoomOf(data, id);
    var line := RoomLine(RoomName(c, id), room);
    var acTexts := AcTexts(room.airConditioners);
    if acTexts != [] then line + ("\n에어컨: " + Join(acTexts, ", ")) else line
  }

  /** A room text always holds a visible character, so it is never empty or blank. */
  lemma RoomTextVisible(c: RoomConfigs, data: RoomData, id: string)
    ensures !IsBlank(RoomText(c, data, id))
  {
    VisibleAt(RoomText(c, data, id), |RoomName(c, id)| + 1);
  }

  /** The room text is just its reading line exactly when every air conditioner is off. */
  lemma RoomTextWithoutAcs(c: RoomConfigs, data: RoomData, id: string)
    ensures RoomText(c, data, id) == RoomLine(RoomName(c, id), RoomOf(data, id)) <==>
      forall k :: 0 <= k < |RoomOf(data, id).airConditioners| ==> RoomOf(data, id).airConditioners[k].mode == "off"
  {
    var room := RoomOf(data, id);
    var line := RoomLine(RoomName(c, id), room);
    AcTextsEmpty(room.airConditioners);
    if AcTexts(room.airConditioners) != [] {
      assert |line + ("\n에어컨: " + Join(AcTexts(room.airConditioners), ", "))| > |line|;
    }
  }

  /** The room text lists the entry of every air conditioner of the room that is not off. */
  lemma RoomTextListsAc(c: RoomConfigs, data: RoomData, id: string, k: nat)
    requires k < |RoomOf(data, id).airConditioners|
    requires RoomOf(data, id).airConditioners[k].mode != "off"
    ensures Contains(RoomText(c, data, id), AcText(RoomOf(data, id).airConditioners[k]).value)
  {
    var acs := RoomOf(data, id).airConditioners;
    var line := RoomLine(RoomName(c, id), RoomOf(data, id));
    AcTextsHas(acs, k);
    var j :| 0 <= j < |AcTexts(acs)| && AcTexts(acs)[j] == AcText(acs[k]).value;
    var joined := Join(AcTexts(acs), ", ");
    JoinHasPart(AcTexts(acs), ", ", j);
    ContainsPrepended(line + "\n에어컨: ", joined, AcText(acs[k]).value);
    AppendAssoc(line, "\n에어컨: ", joined);
  }

  /**
   * Right after the page opens, a room whose configured air conditioners
   * all have no mode or mode `off` reports only its reading line.
   */
  lemma InitialRoomHasNoAcLine(b: Branch, id: string)
    requires id in b.rooms.ids
    requires forall ac :: ac in ConfigOf(b.rooms, id).airConditioners ==> ac.mode == [] || ac.mode == "off"
    ensures RoomText(b.rooms, InitialState(b).roomData, id) ==
      RoomLine(RoomName(b.rooms, id), InitialRoom(ConfigOf(b.rooms, id)))
  {
    var data := InitialState(b).roomData;
    var acs := InitialRoom(ConfigOf(b.rooms, id)).airConditioners;
    assert RoomOf(data, id) == InitialRoom(ConfigOf(b.rooms, id));
    assert forall k :: 0 <= k < |acs| ==> acs[k].mode == "off" by {
      forall k | 0 <= k < |acs|
        ensures acs[k].mode == "off"
      {
        assert ConfigOf(b.rooms, id).airConditioners[k] in ConfigOf(b.rooms, id).airConditioners;
      }
    }
    RoomTextWithoutAcs(b.rooms, data, id);
  }

  /** `generateRoomText(roomId)`: the reading line, then the air conditioners that are not off. */
  method GenerateRoomText(b: Branch, st: PageState, roomId: string) returns (text: string)
    ensures text == RoomText(b.rooms, st.roomData, roomId)
  {
    var room := RoomOf(st.roomData, roomId);
    var roomName := RoomName(b.rooms, roomId);
    text := RoomLine(roomName, room);
    if |room.airConditioners| > 0 {
      var acTexts := AcTexts(room.airConditioners);
      if |acTexts| > 0 {
        text := text + ("\n에어컨: " + Join(acTexts, ", "));
      }
    }
  }

  // ------------------------------------------------------------------ report

  /** The text of each room, in the order of the ids. */
  function RoomTexts(c: RoomConfigs, data: RoomData, ids: seq<string>): (r: seq<string>)
    ensures |r| == |ids|
    ensures forall i :: 0 <= i < |ids| ==> r[i] == RoomText(c, data, ids[i])
  {
    seq(|ids|, i requires 0 <= i < |ids| => RoomText(c, data, ids[i]))
  }

  /** The text so far with each room text that is not empty and a newline, in order. */
  function WithTexts(text: string, texts: seq<string>): string {
    if texts == [] then text
    else
      var before := WithTexts(text, texts[..|texts| - 1]);
      var t := texts[|texts| - 1];
      if t != [] then before + (t + "\n") else before
  }

  /** The report before it is trimmed: the first line, every room, then the note when it is not blank. */
  function ReportText(b: Branch, st: PageState): string {
    var rooms := WithTexts(Header(b.name), RoomTexts(b.rooms, st.roomData, b.rooms.ids));
    if !IsBlank(st.additionalChecklistNote) then rooms + ("\n추가 사항:\n" + st.additionalChecklistNote)
    else rooms
  }

  lemma WithTextsStep(text: string, texts: seq<string>, i: nat)
    requires i < |texts|
    ensures WithTexts(text, texts[..i + 1]) ==
      if texts[i] != [] then WithTexts(text, texts[..i]) + (texts[i] + "\n") else WithTexts(text, texts[..i])
  {
    assert texts[..i + 1][..i] == texts[..i];
  }

  /** `actuallyCopyText`: assemble the report and copy it, or alert when there is nothing in it. */
  method ActuallyCopyText(b: Branch, st: PageState) returns (copied: Option<string>)
    ensures copied == CopyOutcome(b.name, ReportText(b, st))
  {
    var reportText := b.name + " 입니다.\n\n";
    var ids := b.rooms.ids;
    ghost var texts := RoomTexts(b.rooms, st.roomData, ids);
    var i := 0;
    while i < |ids|
      invariant 0 <= i <= |ids|
      invariant reportText == WithTexts(Header(b.name), texts[..i])
    {
      var roomText := GenerateRoomText(b, st, ids[i]);
      if roomText != [] {
        reportText := reportText + (roomText + "\n");
      }
      WithTextsStep(Header(b.name), texts, i);
      i := i + 1;
    }
    assert texts[..i] == texts;
    if !IsBlank(st.additionalChecklistNote) {
      reportText := reportText + ("\n추가 사항:\n" + st.additionalChecklistNote);
    }
    if Trim(reportText) == b.name + " 입니다." {
      return None;
    }
    return Some(Trim(reportText));
  }

  /** The text after more room texts extends the text after fewer. */
  lemma {:induction false} WithTextsGrows(text: string, texts: seq<string>, j: nat)
    requires j <= |texts|
    ensures WithTexts(text, texts[..j]) <= WithTexts(text, texts)
    decreases |texts| - j
  {
    if j < |texts| {
      var n := |texts| - 1;
      var front := texts[..n];
      assert front[..j] == texts[..j];
      WithTextsGrows(text, front, j);
      var before := WithTexts(text, front);
      var added := if texts[n] != [] then texts[n] + "\n" else [];
      assert WithTexts(text, texts) == before + added;
      AppendBlankAfter(before, 0, added);
      PrefixOfPrefix(WithTexts(text, texts[..j]), before, before + added);
    } else {
      assert texts[..j] == texts;
    }
  }

  /** The report holds the room texts in configuration order: each one right after those before it. */
  lemma RoomInReport(b: Branch, st: PageState, i: nat)
    requires i < |b.rooms.ids|
    ensures
      var texts := RoomTexts(b.rooms, st.roomData, b.rooms.ids);
      WithTexts(Header(b.name), texts[..i]) + (RoomText(b.rooms, st.roomData, b.rooms.ids[i]) + "\n") <= ReportText(b, st)
  {
    var texts := RoomTexts(b.rooms, st.roomData, b.rooms.ids);
    var h := Header(b.name);
    WithTextsStep(h, texts, i);
    WithTextsGrows(h, texts, i + 1);
    var rooms := WithTexts(h, texts);
    if !IsBlank(st.additionalChecklistNote) {
      var added := "\n추가 사항:\n" + st.additionalChecklistNote;
      AppendBlankAfter(rooms, 0, added);
      PrefixOfPrefix(WithTexts(h, texts[..i + 1]), rooms, rooms + added);
    }
  }

  /** Past the text it starts from, visible room texts leave nothing blank exactly when there are some. */
  lemma {:induction false} WithTextsBlankAfter(text: string, texts: seq<string>)
    requires forall i :: 0 <= i < |texts| ==> !IsBlank(texts[i])
    ensures text <= WithTexts(text, texts)
    ensures BlankAfter(WithTexts(text, texts), |text|) <==> texts == []
  {
    if texts != [] {
      var n := |texts| - 1;
      var before := WithTexts(text, texts[..n]);
      WithTextsBlankAfter(text, texts[..n]);
      BlankAppend(texts[n], "\n");
      AppendBlankAfter(before, |text|, texts[n] + "\n");
      PrefixOfPrefix(text, before, before + (texts[n] + "\n"));
    }
  }

  /**
   * Room texts are never blank, so the page alerts instead of copying
   * exactly when the branch has no room and the note is blank.
   */
  lemma NothingToCopy(b: Branch, st: PageState)
    requires b.name != [] && !IsWhitespace(b.name[0])
    ensures CopyOutcome(b.name, ReportText(b, st)).None? <==> b.rooms.ids == [] && IsBlank(st.additionalChecklistNote)
  {
    var h := Header(b.name);
    var note := st.additionalChecklistNote;
    var texts := RoomTexts(b.rooms, st.roomData, b.rooms.ids);
    forall i | 0 <= i < |texts|
      ensures !IsBlank(texts[i])
    {
      RoomTextVisible(b.rooms, st.roomData, b.rooms.ids[i]);
    }
    var rooms := WithTexts(h, texts);
    WithTextsBlankAfter(h, texts);
    if !IsBlank(note) {
      var added := "\n추가 사항:\n" + note;
      assert added[1] == '추';
      VisibleAt(added, 1);
      AppendBlankAfter(rooms, |h|, added);
      PrefixOfPrefix(h, rooms, rooms + added);
    }
    AlertsExactlyWhenEmpty(b.name, ReportText(b, st));
  }
}
