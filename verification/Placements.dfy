/** References to placements and placement rules. */
module Placements {
  import opened Options

  datatype PlacementRef = PlacementRef(kind: string, name: string)

  const RULE_KIND := "PlacementRule"
  const PLACEMENT_KIND := "Placement"

  /** Whether a subscription with this reference is placed by a placement or a placement rule. */
  predicate IsPlacementModel(ref: Option<PlacementRef>) {
    ref.Some? && ref.value.kind in [RULE_KIND, PLACEMENT_KIND]
  }
}
