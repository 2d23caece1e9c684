/**
  The metadata the resolver reads instead of runtime reflection: bindable slots
  with their ordered type candidates, the class table, and the collaborators
  (self-construction builder, registered factory services) the named-type rule
  calls into.
 */
module Reflection {
  import opened Wrappers
  import opened PhpValues

  /**
    What one type candidate is: a builtin type (`int`, `string`, `mixed`, ...),
    a named class type, an intersection type (neither named nor a union), or
    no declared type at all (`getType()` is null, and the resolvers pass that
    null on where a `ReflectionType` is declared).
   */
  datatype Kind = Builtin(name: string) | Named(name: string) | Intersection | Untyped

  datatype Candidate = Candidate(kind: Kind, allowsNull: bool)

  /**
    A parameter or property. A union type lists its members as candidates;
    any other type is a single candidate.
   */
  datatype Slot = Slot(
    name: string,
    candidates: seq<Candidate>,
    defaultValue: Option<Value>,
    declaringClass: Option<string>
  )

  /**
    One known class: its parent, every class and interface it is an instance
    of, and whether it implements the self-construction interface.
   */
  datatype ClassInfo = ClassInfo(parent: Option<string>, ancestors: set<string>, selfConstructing: bool)

  /** A service registered under the factory-service tag. */
  datatype FactoryService = FactoryService(implementsInterface: bool, build: (string, Value) -> Value)

  datatype World = World(
    classes: map<string, ClassInfo>,
    selfBuild: (string, Value) -> Value,        // `T::buildFromParameter($v)`
    services: seq<FactoryService>,              // in registration order
    floats: FloatOps,
    legacyClassTransform: (string, Value) -> Value
  )

  predicate ClassExists(w: World, name: string) {
    name in w.classes
  }

  /** `$v instanceof $cls`. */
  predicate InstanceOf(w: World, v: Value, cls: string) {
    v.Obj? && (v.cls == cls || (v.cls in w.classes && cls in w.classes[v.cls].ancestors))
  }

  /** The parent class of a declaring class, if it has one. */
  function ParentOf(w: World, declaring: Option<string>): Option<string> {
    if declaring.Some? && declaring.value in w.classes then w.classes[declaring.value].parent else None
  }

  /**
    `mapSpecialName`: `self` names the declaring class, `parent` its parent
    class; either stays as written when there is no such class.
   */
  function MapSpecialName(name: string, slot: Slot, w: World): (r: string)
    ensures name == "parent" && ParentOf(w, slot.declaringClass).Some? ==> r == ParentOf(w, slot.declaringClass).value
    ensures name == "self" && slot.declaringClass.Some? ==> r == slot.declaringClass.value
    ensures name == "parent" && ParentOf(w, slot.declaringClass).None? ==> r == name
    ensures name == "self" && slot.declaringClass.None? ==> r == name
    ensures r != name ==> name == "self" || name == "parent"
  {
    if name == "parent" then
      var p := ParentOf(w, slot.declaringClass);
      if p.Some? then p.value else name
    else if name == "self" then
      slot.declaringClass.GetOr(name)
    else
      name
  }

  /** PHP reserves `self` and `parent`: no class may carry either name. */
  predicate NotReserved(c: Option<string>) {
    c != Some("self") && c != Some("parent")
  }

  /**
    Mapping is idempotent: a name already mapped maps to itself, because the
    class it names cannot be called `self` or `parent`.
   */
  lemma MapSpecialNameIdempotent(name: string, slot: Slot, w: World)
    requires NotReserved(slot.declaringClass) && NotReserved(ParentOf(w, slot.declaringClass))
    ensures MapSpecialName(MapSpecialName(name, slot, w), slot, w) == MapSpecialName(name, slot, w)
  {
  }
}
