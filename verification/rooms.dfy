/**
 * The room and air-conditioner state that the inventory page and the
 * temperature report page both keep: what the branch configuration lists,
 * the editable state built from it, the two property updaters and the
 * labels of the air-conditioner modes. Form values are strings; the empty
 * string stands for a field that is missing or empty, which every reader
 * treats alike (`value || ''`, `if (value)`).
 */
module Rooms {
  import opened Optional

  /** An air conditioner as the branch configuration lists it. */
  datatype AcConfig = AcConfig(location: string, mode: string, temperature: string, reservation: string)

  /** A room as the branch configuration lists it. */
  datatype RoomConfig = RoomConfig(name: string, temperature: string, humidity: string, airConditioners: seq<AcConfig>)

  /** The branch's rooms: their ids in `Object.keys` order and each id's configuration. */
  datatype RoomConfigs = RoomConfigs(ids: seq<string>, rooms: map<string, RoomConfig>)

  /** The editable state of one air conditioner. */
  datatype AcState = AcState(location: string, mode: string, temperature: string, reservation: string)

  /** The editable state of one room. */
  datatype RoomState = RoomState(temperature: string, humidity: string, airConditioners: seq<AcState>)

  /** The page's `roomData`: room id to room state. */
  type RoomData = map<string, RoomState>

  /** The fields of a room and of an air conditioner that the form edits. */
  datatype RoomField = Temperature | Humidity
  datatype AcField = Mode | AcTemperature | Reservation

  /** `configs[roomId] || {}`. */
  function ConfigOf(c: RoomConfigs, id: string): RoomConfig {
    if id in c.rooms then c.rooms[id] else RoomConfig("", "", "", [])
  }

  /** `roomData[roomId] || {}`: a missing room reads as one with every field empty. */
  function RoomOf(data: RoomData, id: string): RoomState {
    if id in data then data[id] else RoomState("", "", [])
  }

  /** `roomConfig.name || roomId`: the name a room is reported under. */
  function RoomName(c: RoomConfigs, id: string): string {
    if ConfigOf(c, id).name != [] then ConfigOf(c, id).name else id
  }

  function RoomFieldOf(s: RoomState, f: RoomField): string {
    match f
    case Temperature => s.temperature
    case Humidity => s.humidity
  }

  function AcFieldOf(a: AcState, f: AcField): string {
    match f
    case Mode => a.mode
    case AcTemperature => a.temperature
    case Reservation => a.reservation
  }

  // ------------------------------------------------------------ initial state

  /** An air conditioner's initial state: the mode defaults to `off`. */
  function InitialAc(ac: AcConfig): (s: AcState)
    ensures s.mode != []
    ensures ac.mode == [] ==> s.mode == "off"
    ensures ac.mode != [] ==> s.mode == ac.mode
    ensures s.location == ac.location && s.temperature == ac.temperature && s.reservation == ac.reservation
  {
    AcState(ac.location, if ac.mode == [] then "off" else ac.mode, ac.temperature, ac.reservation)
  }

  function InitialAcs(acs: seq<AcConfig>): (r: seq<AcState>)
    ensures |r| == |acs|
    ensures forall i :: 0 <= i < |acs| ==> r[i] == InitialAc(acs[i])
  {
    seq(|acs|, i requires 0 <= i < |acs| => InitialAc(acs[i]))
  }

  /** A room's initial state: its configured readings and its air conditioners. */
  function InitialRoom(c: RoomConfig): RoomState {
    RoomState(c.temperature, c.humidity, InitialAcs(c.airConditioners))
  }

  /** The initial `roomData`: every configured room in its initial state. */
  function InitialRooms(c: RoomConfigs): map<string, RoomState> {
    map id | id in c.ids :: InitialRoom(ConfigOf(c, id))
  }

  /** The effect that builds the initial `roomData`, one configured room at a time. */
  method InitialRoomState(c: RoomConfigs) returns (data: RoomData)
    ensures data == InitialRooms(c)
    ensures data.Keys == set id | id in c.ids
    ensures forall id :: id in data ==> forall k :: 0 <= k < |data[id].airConditioners| ==> data[id].airConditioners[k].mode != []
  {
    data := map[];
    var i := 0;
    while i < |c.ids|
      invariant 0 <= i <= |c.ids|
      invariant data == map id | id in c.ids[..i] :: InitialRoom(ConfigOf(c, id))
    {
      var id := c.ids[i];
      data := data[id := InitialRoom(ConfigOf(c, id))];
      assert c.ids[..i + 1] == c.ids[..i] + [id];
      i := i + 1;
    }
    assert c.ids[..i] == c.ids;
  }

  // ---------------------------------------------------------------- updaters

  /** `handleRoomPropertyChange`: set one field of one room. */
  function SetRoomField(data: RoomData, id: string, f: RoomField, value: string): (r: RoomData)
    ensures r.Keys == data.Keys + {id}
    ensures forall other :: other in data && other != id ==> r[other] == data[other]
    ensures RoomFieldOf(r[id], f) == value
    ensures forall g :: g != f ==> RoomFieldOf(r[id], g) == RoomFieldOf(RoomOf(data, id), g)
    ensures r[id].airConditioners == RoomOf(data, id).airConditioners
  {
    var s := RoomOf(data, id);
    data[id := match f
              case Temperature => s.(temperature := value)
              case Humidity => s.(humidity := value)]
  }

  /** Setting a room field twice keeps only the second value. */
  lemma SetRoomFieldTwice(data: RoomData, id: string, f: RoomField, v1: string, v2: string)
    ensures SetRoomField(SetRoomField(data, id, f, v1), id, f, v2) == SetRoomField(data, id, f, v2)
  {
  }

  /** One air conditioner with one field set; the others are kept. */
  function SetAc(acs: seq<AcState>, index: int, f: AcField, value: string): (r: seq<AcState>)
    ensures |r| == |acs|
    ensures forall k :: 0 <= k < |acs| && k != index ==> r[k] == acs[k]
    ensures 0 <= index < |acs| ==> AcFieldOf(r[index], f) == value
    ensures 0 <= index < |acs| ==> r[index].location == acs[index].location
    ensures 0 <= index < |acs| ==> forall g :: g != f ==> AcFieldOf(r[index], g) == AcFieldOf(acs[index], g)
  {
    seq(|acs|, k requires 0 <= k < |acs| =>
      if k != index then acs[k]
      else match f
        case Mode => acs[k].(mode := value)
        case AcTemperature => acs[k].(temperature := value)
        case Reservation => acs[k].(reservation := value))
  }

  /**
   * `handleAcPropertyChange`: set one field of one air conditioner of one
   * room. Reading the air conditioners of a room that is not in the state
   * throws, which is None here.
   */
  function SetAcField(data: RoomData, id: string, index: int, f: AcField, value: string): (r: Option<RoomData>)
    ensures r.None? <==> id !in data
    ensures r.Some? ==> r.value.Keys == data.Keys
    ensures r.Some? ==> forall other :: other in data && other != id ==> r.value[other] == data[other]
    ensures r.Some? ==> r.value[id].temperature == data[id].temperature && r.value[id].humidity == data[id].humidity
    ensures r.Some? ==> r.value[id].airConditioners == SetAc(data[id].airConditioners, index, f, value)
  {
    if id !in data then None
    else
      var s := data[id];
      Some(data[id := s.(airConditioners := SetAc(s.airConditioners, index, f, value))])
  }

  /** An index outside the room's air conditioners changes nothing. */
  lemma SetAcOutOfRange(data: RoomData, id: string, index: int, f: AcField, value: string)
    requires id in data
    requires index < 0 || index >= |data[id].airConditioners|
    ensures SetAcField(data, id, index, f, value) == Some(data)
  {
    var acs := data[id].airConditioners;
    assert SetAc(acs, index, f, value) == acs;
    assert data[id := data[id].(airConditioners := acs)] == data;
  }

  // ------------------------------------------------------------------ labels

  /** The labels of the known modes. */
  const ModeLabels: map<string, string> :=
    map["off" := "꺼짐", "cool" := "냉방", "fan" := "송풍", "dry" := "제습", "heat" := "난방"]

  /** `getModeText`: a known mode's label; any other mode is shown as it is. */
  function ModeText(mode: string): (t: string)
    ensures t == mode <==> mode !in ModeLabels
    ensures mode in ModeLabels ==> t == ModeLabels[mode]
    ensures mode != [] ==> t != []
  {
    if mode in ModeLabels then ModeLabels[mode] else mode
  }

  /** Distinct known modes get distinct labels. */
  lemma ModeLabelsDistinct(a: string, b: string)
    requires a in ModeLabels && b in ModeLabels && a != b
    ensures ModeText(a) != ModeText(b)
  {
  }
}
