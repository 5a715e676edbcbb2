/** The description of a class hierarchy that the linearizer and the method
    combinator read. It stands in for PHP reflection: every unit (class or
    trait) is described by its name, its optional parent class, the traits it
    uses in declaration order, whether it is a trait, and the names of the
    methods whose declaring class it is. */
module Hierarchy {
  import opened Wrappers

  /** A class or trait name; the memo caches are keyed by it. */
  type Name = string

  /** `ownMethods` holds every method name `n` for which reflection on this unit
      reports `hasMethod(n)` with this unit as the declaring class; in PHP that
      includes the methods copied in from the traits the unit uses. */
  datatype Unit = Unit(parent: Option<Name>, traits: seq<Name>, isTrait: bool, ownMethods: set<string>)

  /** The whole hierarchy: a descriptor for every loaded unit. */
  type Graph = map<Name, Unit>

  /** The exceptions of the core: `IndeterminateHierarchy` from the C3 merge,
      `BadMethodCall` from the default trait-method prefix, and `UnknownClass`
      for the `ReflectionException` raised when `execute` is handed the name
      of a class that is not loaded. */
  datatype Error = IndeterminateHierarchy | BadMethodCall | UnknownClass

  /** The local precedence list of a unit: its traits in declaration order,
      followed by its parent class when it has one. */
  function Parents(d: Unit): (ps: seq<Name>)
    ensures |ps| == |d.traits| + (if d.parent.Some? then 1 else 0)
    ensures ps[..|d.traits|] == d.traits
    ensures d.parent.Some? ==> ps[|ps| - 1] == d.parent.value
  {
    d.traits + (if d.parent.Some? then [d.parent.value] else [])
  }

  /** The hierarchy is closed and acyclic: every parent and trait is described,
      and ranks strictly lower than the units that use it. PHP guarantees this
      for loaded classes; the model needs it to show that `mro` terminates. */
  predicate Ranked(h: Graph, rank: Name -> nat) {
    forall n, p :: n in h && p in Parents(h[n]) ==> p in h && rank(p) < rank(n)
  }
}
