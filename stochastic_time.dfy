/**
 * What GeneralizeErlangTime and HyperExponentialTime share as subclasses of the eulero
 * `StochasticTime` class: the methods a caller may invoke that they leave unimplemented,
 * and the Java exceptions their operations can end in.
 */
module StochasticTimes {

  /** Methods of `StochasticTime` whose bodies may do nothing but throw. */
  datatype TimeMethod =
    | GetStochasticTransitionFeature
    | GetStochasticTransitionFeatures
    | Time2QueuingEulero
    | ComputeJobSizeLinear(resources: real)
    | ComputeJobSizeInhomogeneousLinear(resources: real, p: real)
    | ComputeJobSizePiecewiseLinear(resources: real, rMax: real)
    | ToString
    | RandomizeParameters

  datatype JavaException =
    | UnsupportedOperationException
    | ArithmeticException  // a BigDecimal division by zero

  /** The methods that hand the law to the external ORIS library instead of throwing. */
  predicate IsFeatureMethod(m: TimeMethod) {
    m.GetStochasticTransitionFeature? || m.GetStochasticTransitionFeatures?
  }

  /** `getWeights` of both classes: a single weight of one. */
  const Weights: seq<real> := [1.0]
}
