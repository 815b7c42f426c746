/** The sensor reading that travels from a connection to both readers (config.h). */
module Measurements {
  // uint16_t
  type SensorId = i: int | 0 <= i < 0x1_0000

  // The value is a real: rounding of C doubles is not modelled.
  datatype Measurement = Measurement(id: SensorId, value: real, ts: int)

  // What a reader's private copy holds before `sbuffer_remove` fills it.
  const BLANK := Measurement(0, 0.0, 0)

  predicate Identified(m: Measurement) {
    m.id != 0
  }
}
