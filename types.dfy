/**
 * Message types and the class graph that `issubclass` queries.
 *
 * A type is an abstract identifier. The graph records, for every class, the
 * set of its proper supertypes (its method resolution order without itself);
 * a class missing from the map has no supertype besides itself. The graph is
 * taken as given: no result of the model depends on its being transitive.
 */
module Types {

  type TypeId = nat

  datatype Hierarchy = Hierarchy(supertypes: map<TypeId, set<TypeId>>)

  /** `issubclass(sub, sup)`: every class is a subclass of itself. */
  predicate IsSubclass(h: Hierarchy, sub: TypeId, sup: TypeId) {
    sub == sup || (sub in h.supertypes && sup in h.supertypes[sub])
  }
}
