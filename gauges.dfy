/** The metric sink: the gitlab_token_expiration_days gauge vector, one
    series per label triple, holding the last value set. */
module Gauges {
  import opened Tokens

  /** Series of the vector: label triple to current value. */
  type Series = map<Labels, int>

  class GaugeVec {
    var series: Series

    /** A freshly registered vector has no series. */
    constructor ()
      ensures series == map[]
    {
      series := map[];
    }

    /** WithLabelValues(labels).Set(value): creates the series on first use,
        overwrites it afterwards; every other series keeps its value and no
        series is ever removed. */
    method Set(labels: Labels, value: int)
      modifies this
      ensures series == old(series)[labels := value]
      ensures old(series).Keys <= series.Keys
      ensures forall k :: k in old(series) && k != labels ==> series[k] == old(series)[k]
    {
      series := series[labels := value];
    }
  }
}
