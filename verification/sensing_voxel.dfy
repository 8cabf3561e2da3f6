/**
 * A voxel with an ordered list of sensors: the per-step reading buffer and
 * the reading records its immutable projection carries.
 */
module SensingVoxels {
  import opened Options
  import opened Sensors

  /** One sensor's reading as attached to a voxel's immutable projection. */
  datatype SensorReading = SensorReading(values: seq<real>, domains: seq<Domain>, sensorIndex: nat, nOfSensors: nat)

  /**
   * How the sensors of type S behave on a voxel whose physical state is V:
   * their declared domains, their sense function, and, for sensors that are
   * reading augmenters, the augment hook.
   */
  datatype SensorBehaviour<!S, !V> = SensorBehaviour(
    domains: S -> seq<Domain>,
    sense: (S, V, real) -> seq<real>,
    augmenter: S -> Option<(SensorReading, V) -> SensorReading>)

  /** The immutable projection of a sensing voxel: its physical state and its reading records. */
  datatype VoxelImmutable<V> = VoxelImmutable(body: V, readings: seq<SensorReading>)

  /** One (sensor, reading) pair per sensor, in the sensors' order, all read on body at time t. */
  function Readings<S, V>(sensors: seq<S>, sense: (S, V, real) -> seq<real>, body: V, t: real): (r: seq<(S, seq<real>)>)
    ensures |r| == |sensors|
    ensures forall i :: 0 <= i < |sensors| ==> r[i] == (sensors[i], sense(sensors[i], body, t))
  {
    if sensors == [] then [] else [(sensors[0], sense(sensors[0], body, t))] + Readings(sensors[1..], sense, body, t)
  }

  /** The record the projection attaches for the i-th stored pair. */
  function Record<S, V>(behaviour: SensorBehaviour<S, V>, pairs: seq<(S, seq<real>)>, i: nat, body: V): SensorReading
    requires i < |pairs|
  {
    var sensor := pairs[i].0;
    var raw := SensorReading(pairs[i].1, behaviour.domains(sensor), i, |pairs|);
    match behaviour.augmenter(sensor)
    case None => raw
    case Some(augment) => augment(raw, body)
  }

  /**
   * The records built right after a step at time t: record i carries the i-th
   * sensor's reading of the stepped body, its domains, its index and the sensor count.
   */
  lemma RecordAfterAct<S, V>(behaviour: SensorBehaviour<S, V>, sensors: seq<S>, body: V, t: real, i: nat)
    requires i < |sensors| && behaviour.augmenter(sensors[i]).None?
    ensures var pairs := Readings(sensors, behaviour.sense, body, t);
            i < |pairs| &&
            Record(behaviour, pairs, i, body)
              == SensorReading(behaviour.sense(sensors[i], body, t), behaviour.domains(sensors[i]), i, |sensors|)
  {
  }

  /** A voxel with sensors (the source's SensingVoxel). */
  class SensingVoxel<S, V> {
    /** The sensors, fixed at construction. */
    const sensors: seq<S>
    const behaviour: SensorBehaviour<S, V>
    /** The step of the underlying voxel (the superclass act), which is not part of this model. */
    const advance: (V, real) -> V
    /** The physical state the sensors read. */
    var body: V
    /** The readings of the last step. */
    var lastReadings: seq<(S, seq<real>)>

    constructor (sensors: seq<S>, behaviour: SensorBehaviour<S, V>, advance: (V, real) -> V, body: V)
      ensures this.sensors == sensors && this.behaviour == behaviour && this.advance == advance
      ensures this.body == body && lastReadings == []
    {
      this.sensors := sensors;
      this.behaviour := behaviour;
      this.advance := advance;
      this.body := body;
      lastReadings := [];
    }

    /**
     * Steps the voxel, then reads every sensor on the new state. The new buffer
     * depends only on the sensors, the new state and t, so nothing of the old one survives.
     */
    method Act(t: real)
      modifies this
      ensures body == advance(old(body), t)
      ensures lastReadings == Readings(sensors, behaviour.sense, body, t)
    {
      body := advance(body, t);
      lastReadings := Readings(sensors, behaviour.sense, body, t);
    }

    /** Appends one reading record per stored pair, in order, to the voxel's projection. */
    method Immutable() returns (im: VoxelImmutable<V>)
      ensures im.body == body && |im.readings| == |lastReadings|
      ensures forall i :: 0 <= i < |lastReadings| ==> im.readings[i] == Record(behaviour, lastReadings, i, body)
    {
      im := VoxelImmutable(body, []);
      var nOfSensors := |lastReadings|;
      for i := 0 to nOfSensors
        invariant im.body == body && |im.readings| == i
        invariant forall k :: 0 <= k < i ==> im.readings[k] == Record(behaviour, lastReadings, k, body)
      {
        var pair := lastReadings[i];
        var sensor := pair.0;
        var reading := SensorReading(pair.1, behaviour.domains(sensor), i, nOfSensors);
        if behaviour.augmenter(sensor).Some? {
          reading := behaviour.augmenter(sensor).value(reading, body);
        }
        im := im.(readings := im.readings + [reading]);
      }
    }
  }
}
