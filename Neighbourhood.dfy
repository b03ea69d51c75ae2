/** The neighbourhoods that decide whether two vectors recur: a fixed radius,
    a radius corridor, or a fixed amount of nearest neighbours (FAN). Radii
    and distances are reals. */
module Neighbourhood {
  datatype Option<T> = None | Some(value: T)

  datatype Neighbourhood =
    | FixedRadius(radius: real)
    | RadiusCorridor(innerRadius: real, outerRadius: real)
      /** The indices of the neighbours are unknown (`None`) until they are
          set from outside. */
    | FAN(k: int, indices: Option<seq<int>>)

  /** The name of the class of a neighbourhood, as the kernel configuration
      refers to it. */
  function ClassName(nb: Neighbourhood): string
  {
    match nb
    case FixedRadius(_) => "FixedRadius"
    case RadiusCorridor(_, _) => "RadiusCorridor"
    case FAN(_, _) => "FAN"
  }

  /** Whether a radius neighbourhood holds a vector at `distance`: strictly
      inside the radius, or strictly between the two radii of a corridor. */
  predicate Contains(nb: Neighbourhood, distance: real)
    requires !nb.FAN?
  {
    match nb
    case FixedRadius(radius) => distance < radius
    case RadiusCorridor(inner, outer) => inner < distance < outer
  }

  /** Whether a FAN neighbourhood holds the vector of index `idx`; `None` when
      its indices are not set, where the membership test fails. */
  function FanContains(nb: Neighbourhood, idx: int): (r: Option<bool>)
    requires nb.FAN?
    ensures r.Some? <==> nb.indices.Some?
    ensures r == Some(true) <==> nb.indices.Some? && idx in nb.indices.value
  {
    match nb.indices
    case None => None
    case Some(indices) => Some(idx in indices)
  }

  /** A fixed radius holds exactly the distances below it; a distance equal
      to the radius is outside. */
  lemma FixedRadiusIsStrict(radius: real, distance: real)
    ensures Contains(FixedRadius(radius), distance) <==> distance < radius
    ensures !Contains(FixedRadius(radius), radius)
  {
  }

  /** A corridor holds exactly the distances strictly between its radii. */
  lemma CorridorIsStrict(inner: real, outer: real, distance: real)
    ensures Contains(RadiusCorridor(inner, outer), distance) <==> inner < distance && distance < outer
    ensures !Contains(RadiusCorridor(inner, outer), inner) && !Contains(RadiusCorridor(inner, outer), outer)
  {
  }

  /** A corridor whose inner radius is not below its outer radius holds no
      distance. */
  lemma EmptyCorridor(inner: real, outer: real, distance: real)
    requires inner >= outer
    ensures !Contains(RadiusCorridor(inner, outer), distance)
  {
  }

  /** A corridor lies inside the fixed radius of its outer radius. */
  lemma CorridorWithinOuterRadius(inner: real, outer: real, distance: real)
    requires Contains(RadiusCorridor(inner, outer), distance)
    ensures Contains(FixedRadius(outer), distance)
  {
  }

  /** A larger radius holds every distance a smaller one holds. */
  lemma RadiusMonotone(radius: real, radius': real, distance: real)
    requires radius <= radius' && Contains(FixedRadius(radius), distance)
    ensures Contains(FixedRadius(radius'), distance)
  {
  }
}
