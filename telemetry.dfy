/**
  The part of the metrics API the callback uses: a gauge observer result
  that records each observed value with its attribute.
 */
module Telemetry {

  datatype Attribute = Attribute(key: string, value: string)

  datatype Observation = Observation(value: real, attribute: Attribute)

  class ObserverResult {
    /** Every observation made through this result, oldest first. */
    var observations: seq<Observation>

    constructor ()
      ensures observations == []
    {
      observations := [];
    }

    method Observe(value: real, attribute: Attribute)
      modifies this
      ensures observations == old(observations) + [Observation(value, attribute)]
    {
      observations := observations + [Observation(value, attribute)];
    }
  }
}
