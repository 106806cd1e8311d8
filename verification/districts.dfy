/** A district of Zurich and its lazily filled cache of closeness scores (districts.py).
    Districts are identified by their `id`, which is also what the source hashes on; the
    cache is keyed by the other district's id.  `None` is the unset cache; an empty map
    behaves the same, since the source tests the cache for truthiness. */
module Districts {
  import opened Errors

  datatype District = District(id: int, name: string, distances: Option<map<int, real>>)

  /** A district as the dataclass builds it: no distances yet, so every other district is
      unknown to it, while it is still at closeness 1.0 to itself. */
  function Unresolved(id: int, name: string): (r: District)
    ensures r.id == id && r.name == name
    ensures WellFormed(r)
    ensures forall o: District :: o.id != id ==> GetDistance(r, o) == Err(RuntimeError)
  {
    District(id, name, None)
  }

  /** The documented range of the cached values: every closeness lies in [0.0, 1.0]. */
  ghost predicate WellFormed(d: District) {
    d.distances.Some? ==>
      forall k :: k in d.distances.value ==> 0.0 <= d.distances.value[k] <= 1.0
  }

  /** `get_distance`: 1.0 for the district itself without consulting the cache; the cached
      closeness for another district; RuntimeError when the cache is unset or lacks it. */
  function GetDistance(self: District, other: District): (r: Result<real>)
    ensures other.id == self.id ==> r == Ok(1.0)
    ensures r.Err? ==> r.error == RuntimeError
    ensures other.id != self.id ==>
              (r.Ok? <==> self.distances.Some? && other.id in self.distances.value)
    ensures other.id != self.id && r.Ok? ==> r.value == self.distances.value[other.id]
    ensures WellFormed(self) && r.Ok? ==> 0.0 <= r.value <= 1.0
  {
    if other.id == self.id then Ok(1.0)
    else if self.distances.None? || |self.distances.value| == 0
            || other.id !in self.distances.value then
      Err(RuntimeError)
    else
      Ok(self.distances.value[other.id])
  }

  /** `set_distance`: caches `distance` for `other`, creating the map on first use.  The
      district keeps its identity, the new entry is what `GetDistance` now reports, and
      every other lookup answers as before.  The source does not check the range; a value
      in [0.0, 1.0] keeps the cache well formed. */
  function SetDistance(self: District, other: District, distance: real): (r: District)
    ensures r.id == self.id && r.name == self.name
    ensures other.id != self.id ==> GetDistance(r, other) == Ok(distance)
    ensures forall o: District :: o.id != other.id ==> GetDistance(r, o) == GetDistance(self, o)
    ensures WellFormed(self) && 0.0 <= distance <= 1.0 ==> WellFormed(r)
  {
    var cache := if self.distances.None? || |self.distances.value| == 0 then map[]
                 else self.distances.value;
    self.(distances := Some(cache[other.id := distance]))
  }
}
