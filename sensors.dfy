/**
 * The per-sensor part of `ecobee_log`: for every thermostat of a
 * successful response, every remote sensor and every capability, the topic
 * and the message the script builds (it logs them; nothing is published).
 */
module Sensors {
  import opened Optional

  datatype Capability = Capability(capabilityType: string, value: string)

  datatype RemoteSensor = RemoteSensor(name: string, code: string, capabilities: seq<Capability>)

  datatype Thermostat = Thermostat(remoteSensors: seq<RemoteSensor>)

  /** The reply of `request_thermostats`: its status code and thermostat list. */
  datatype ThermostatResponse = ThermostatResponse(statusCode: int, thermostatList: seq<Thermostat>)

  /** The message dictionary: room, code, type, value. */
  datatype SensorMessage = SensorMessage(room: string, code: string, capabilityType: string, value: string)

  /** A message with the topic it was built for. */
  datatype Publication = Publication(topic: string, message: SensorMessage)

  // ---------------------------------------------------------------------
  // Room names

  predicate IsAsciiUpper(c: char) {
    'A' <= c <= 'Z'
  }

  /** No spaces and no upper-case ASCII letters. */
  predicate IsRoomName(s: string) {
    forall i :: 0 <= i < |s| ==> s[i] != ' ' && !IsAsciiUpper(s[i])
  }

  function AsciiLower(c: char): (d: char)
    ensures !IsAsciiUpper(d)
    ensures IsAsciiUpper(c) ==> d as int == c as int + 32
    ensures !IsAsciiUpper(c) ==> d == c
  {
    if IsAsciiUpper(c) then (c as int + 32) as char else c
  }

  /** `s.replace(from, to)` for one character: every `from` becomes `to`. */
  function Replace(s: string, from: char, to: char): (r: string)
    ensures |r| == |s|
    ensures forall i :: 0 <= i < |s| ==> r[i] == (if s[i] == from then to else s[i])
  {
    if s == [] then [] else [if s[0] == from then to else s[0]] + Replace(s[1..], from, to)
  }

  /** `s.lower()` on ASCII: upper-case letters become lower-case, all else is kept. */
  function Lower(s: string): (r: string)
    ensures |r| == |s|
    ensures forall i :: 0 <= i < |s| ==> r[i] == AsciiLower(s[i])
  {
    if s == [] then [] else [AsciiLower(s[0])] + Lower(s[1..])
  }

  /**
   * `sensor.name.replace(' ', '-').lower()`: a name with no spaces and no
   * upper-case letters, as long as the sensor name, with a hyphen for each
   * space and every character that is neither kept.
   */
  function RoomName(sensorName: string): (room: string)
    ensures |room| == |sensorName| && IsRoomName(room)
    ensures forall i :: 0 <= i < |room| ==>
      room[i] == (if sensorName[i] == ' ' then '-' else AsciiLower(sensorName[i]))
    ensures IsRoomName(sensorName) ==> room == sensorName
  {
    Lower(Replace(sensorName, ' ', '-'))
  }

  /** Deriving a room name from a room name changes nothing. */
  lemma RoomNameIdempotent(sensorName: string)
    ensures RoomName(RoomName(sensorName)) == RoomName(sensorName)
  {
  }

  // ---------------------------------------------------------------------
  // Topics and messages

  /** The topic is the prefix, the room, a slash and the capability type; the room is normalised. */
  predicate WellFormed(prefix: string, p: Publication) {
    p.topic == prefix + p.message.room + "/" + p.message.capabilityType && IsRoomName(p.message.room)
  }

  /** The topic and message built for one capability of one sensor. */
  function PublicationFor(prefix: string, sensor: RemoteSensor, cap: Capability): (p: Publication)
    ensures WellFormed(prefix, p)
    ensures p.message.room == RoomName(sensor.name) && p.message.code == sensor.code
    ensures p.message.capabilityType == cap.capabilityType && p.message.value == cap.value
  {
    var room := RoomName(sensor.name);
    var topicName := prefix + room + "/";
    Publication(topicName + cap.capabilityType, SensorMessage(room, sensor.code, cap.capabilityType, cap.value))
  }

  /** The inner loop over `caps`, capabilities of `sensor`: one publication each, in order. */
  function CapabilityPublications(prefix: string, sensor: RemoteSensor, caps: seq<Capability>): (ps: seq<Publication>)
    ensures |ps| == |caps|
    ensures forall i :: 0 <= i < |caps| ==> ps[i] == PublicationFor(prefix, sensor, caps[i])
  {
    if caps == [] then []
    else [PublicationFor(prefix, sensor, caps[0])] + CapabilityPublications(prefix, sensor, caps[1..])
  }

  function SensorPublications(prefix: string, sensor: RemoteSensor): seq<Publication> {
    CapabilityPublications(prefix, sensor, sensor.capabilities)
  }

  /** Number of capabilities over a sequence of sensors. */
  function CapabilityCount(sensors: seq<RemoteSensor>): nat {
    if sensors == [] then 0 else |sensors[0].capabilities| + CapabilityCount(sensors[1..])
  }

  /** The loop over the remote sensors of one thermostat. */
  function ThermostatPublications(prefix: string, sensors: seq<RemoteSensor>): (ps: seq<Publication>)
    ensures |ps| == CapabilityCount(sensors)
    ensures forall p :: p in ps ==> WellFormed(prefix, p)
  {
    if sensors == [] then []
    else SensorPublications(prefix, sensors[0]) + ThermostatPublications(prefix, sensors[1..])
  }

  /**
   * Exactly one publication per capability, in order: the `i`-th
   * capability of the `j`-th sensor is at the number of capabilities of
   * the sensors before it, plus `i`.
   */
  lemma {:induction false} ThermostatPublicationAt(prefix: string, sensors: seq<RemoteSensor>, j: nat, i: nat)
    requires j < |sensors| && i < |sensors[j].capabilities|
    ensures CapabilityCount(sensors[..j]) + i < CapabilityCount(sensors)
    ensures ThermostatPublications(prefix, sensors)[CapabilityCount(sensors[..j]) + i]
            == PublicationFor(prefix, sensors[j], sensors[j].capabilities[i])
  {
    if j == 0 {
      assert sensors[..0] == [];
    } else {
      var rest := sensors[1..];
      assert sensors[..j][1..] == rest[..j - 1];
      assert sensors[..j][0] == sensors[0];
      assert rest[j - 1] == sensors[j];
      ThermostatPublicationAt(prefix, rest, j - 1, i);
    }
  }

  /** Number of capabilities over all remote sensors of a sequence of thermostats. */
  function TotalCount(thermostats: seq<Thermostat>): nat {
    if thermostats == [] then 0
    else CapabilityCount(thermostats[0].remoteSensors) + TotalCount(thermostats[1..])
  }

  /** The loop over the thermostats of the response: one publication per capability. */
  function ResponsePublications(prefix: string, thermostats: seq<Thermostat>): (ps: seq<Publication>)
    ensures |ps| == TotalCount(thermostats)
    ensures forall p :: p in ps ==> WellFormed(prefix, p)
  {
    if thermostats == [] then []
    else ThermostatPublications(prefix, thermostats[0].remoteSensors)
         + ResponsePublications(prefix, thermostats[1..])
  }

  /**
   * Exactly one publication per capability, in order: the `i`-th capability
   * of the `j`-th sensor of the `k`-th thermostat comes after those of the
   * thermostats before it and of the sensors before it on its thermostat.
   */
  lemma {:induction false} ResponsePublicationAt(prefix: string, thermostats: seq<Thermostat>, k: nat, j: nat, i: nat)
    requires k < |thermostats| && j < |thermostats[k].remoteSensors|
    requires i < |thermostats[k].remoteSensors[j].capabilities|
    ensures var sensors := thermostats[k].remoteSensors;
      var n := TotalCount(thermostats[..k]) + CapabilityCount(sensors[..j]) + i;
      n < TotalCount(thermostats) &&
      ResponsePublications(prefix, thermostats)[n] == PublicationFor(prefix, sensors[j], sensors[j].capabilities[i])
  {
    if k == 0 {
      assert thermostats[..0] == [];
      ThermostatPublicationAt(prefix, thermostats[0].remoteSensors, j, i);
    } else {
      var rest := thermostats[1..];
      assert thermostats[..k][1..] == rest[..k - 1];
      assert thermostats[..k][0] == thermostats[0];
      assert rest[k - 1] == thermostats[k];
      ResponsePublicationAt(prefix, rest, k - 1, j, i);
    }
  }

  /** A response with one thermostat publishes exactly that thermostat's sensors. */
  lemma SingleThermostatResponse(prefix: string, t: Thermostat)
    ensures ResponsePublications(prefix, [t]) == ThermostatPublications(prefix, t.remoteSensors)
  {
    assert [t][1..] == [];
  }

  /** The thermostats are processed one after another, in order. */
  lemma {:induction false} ResponsePublicationsAppend(prefix: string, a: seq<Thermostat>, b: seq<Thermostat>)
    ensures ResponsePublications(prefix, a + b)
            == ResponsePublications(prefix, a) + ResponsePublications(prefix, b)
  {
    if a == [] {
      assert a + b == b;
    } else {
      assert (a + b)[0] == a[0];
      assert (a + b)[1..] == a[1..] + b;
      ResponsePublicationsAppend(prefix, a[1..], b);
    }
  }

  /**
   * `ecobee_log` after `request_thermostats`: the status assertion fails
   * (`None`) unless the status code is 0; otherwise the topics and messages
   * of all thermostats.
   */
  function EcobeeLog(prefix: string, response: ThermostatResponse): (r: Option<seq<Publication>>)
    ensures r.Some? <==> response.statusCode == 0
    ensures r.Some? ==> forall p :: p in r.value ==> WellFormed(prefix, p)
    ensures r.Some? ==> r.value == ResponsePublications(prefix, response.thermostatList)
    ensures r.Some? ==> |r.value| == TotalCount(response.thermostatList)
  {
    if response.statusCode != 0 then None
    else Some(ResponsePublications(prefix, response.thermostatList))
  }

  /** The space becomes a hyphen and the capitals become lower case. */
  lemma MyDenRoom()
    ensures RoomName("My Den") == "my-den"
  {
    var room := RoomName("My Den");
    assert "My Den"[0] == 'M' && "My Den"[1] == 'y' && "My Den"[2] == ' ';
    assert "My Den"[3] == 'D' && "My Den"[4] == 'e' && "My Den"[5] == 'n';
    assert room[0] == 'm' && room[1] == 'y' && room[2] == '-';
    assert room[3] == 'd' && room[4] == 'e' && room[5] == 'n';
  }

  /** Any capability of the sensor "My Den" is published under "my-den/". */
  lemma MyDenPublication(sensor: RemoteSensor, cap: Capability)
    requires sensor.name == "My Den"
    ensures PublicationFor("ecobee/", sensor, cap) ==
      Publication("ecobee/my-den/" + cap.capabilityType,
                  SensorMessage("my-den", sensor.code, cap.capabilityType, cap.value))
  {
    MyDenRoom();
    var p := PublicationFor("ecobee/", sensor, cap);
    assert p.message.room == "my-den";
    assert p.topic == "ecobee/" + "my-den" + "/" + cap.capabilityType;
    assert p.topic == "ecobee/my-den/" + cap.capabilityType;
  }

  /** The sensor of the examples below: "My Den" with a temperature and an occupancy reading. */
  function MyDen(): RemoteSensor {
    RemoteSensor("My Den", "rs:100", [Capability("temperature", "215"), Capability("occupancy", "true")])
  }

  /** The example sensor yields two publications, one per capability, under "my-den/". */
  lemma MyDenTopics()
    ensures var ps := ResponsePublications("ecobee/", [Thermostat([MyDen()])]);
      |ps| == 2 &&
      ps[0].topic == "ecobee/my-den/" + "temperature" &&
      ps[1].topic == "ecobee/my-den/" + "occupancy"
  {
    var sensor := MyDen();
    SingleSensorResponse("ecobee/", sensor);
    MyDenPublication(sensor, sensor.capabilities[0]);
    MyDenPublication(sensor, sensor.capabilities[1]);
  }

  /** The example's messages carry the raw values "215" and "true", not converted readings. */
  lemma MyDenMessages()
    ensures var ps := ResponsePublications("ecobee/", [Thermostat([MyDen()])]);
      |ps| == 2 &&
      ps[0].message == SensorMessage("my-den", "rs:100", "temperature", "215") &&
      ps[1].message == SensorMessage("my-den", "rs:100", "occupancy", "true")
  {
    var sensor := MyDen();
    SingleSensorResponse("ecobee/", sensor);
    MyDenPublication(sensor, sensor.capabilities[0]);
    MyDenPublication(sensor, sensor.capabilities[1]);
  }

  /** A response with one thermostat holding one sensor yields that sensor's publications. */
  lemma SingleSensorResponse(prefix: string, sensor: RemoteSensor)
    ensures ResponsePublications(prefix, [Thermostat([sensor])]) == SensorPublications(prefix, sensor)
  {
    assert [sensor][1..] == [];
    assert [Thermostat([sensor])][1..] == [];
  }
}
