/**
 * What the container learns about a class by reflection, as plain values:
 * the class's qualified name, whether it carries @Component, whether its
 * default constructor succeeds, its superclass chain and the fields it
 * declares itself.
 */
module Reflection {

  datatype Option<T> = None | Some(value: T)

  /**
   * A field declared in a class. `autowired` is the @Autowired marker;
   * `settable` is false when a reflective assignment to the field throws
   * (a final field, a primitive field receiving null, an access check).
   */
  datatype FieldDecl = FieldDecl(name: string, declaredType: string, autowired: bool, settable: bool)

  /**
   * A class found by the scan. `instantiable` is false when creating its
   * instance with the default constructor throws (an abstract class, no
   * default constructor). `superclass` is None for a direct subclass of Object.
   */
  datatype TypeDesc = TypeDesc(
    name: string,
    hasComponent: bool,
    instantiable: bool,
    superclass: Option<TypeDesc>,
    declaredFields: seq<FieldDecl>)

  /** A field of an object is identified by the class that declares it and its name. */
  datatype FieldRef = FieldRef(owner: string, name: string)

  const ObjectClass: string := "java.lang.Object"

  /** An object of class `c` is an instance of the type named `t`: `t` is Object, `c` itself or one of its superclasses. */
  predicate InstanceOf(c: TypeDesc, t: string)
  {
    t == ObjectClass || t == c.name || (c.superclass.Some? && InstanceOf(c.superclass.value, t))
  }

  /** A Java class never declares two fields of the same name. */
  predicate DistinctFieldNames(fs: seq<FieldDecl>)
  {
    forall i, j :: 0 <= i < j < |fs| ==> fs[i].name != fs[j].name
  }

  /** Whether assigning field `f` during wiring throws. */
  predicate WiringFails(f: FieldDecl)
  {
    f.autowired && !f.settable
  }

  /** The index of the first declared field whose wiring throws, or |fs| when none does. */
  function FailIndex(fs: seq<FieldDecl>): (k: nat)
    ensures k <= |fs|
    ensures forall j :: 0 <= j < k ==> !WiringFails(fs[j])
    ensures k < |fs| ==> WiringFails(fs[k])
  {
    if fs == [] then 0
    else if WiringFails(fs[0]) then 0
    else 1 + FailIndex(fs[1..])
  }
}
