/**
 * The bean type extractor: unwraps iterable types through their first type
 * argument and map types through their second (value) type argument until a
 * class or interface type that is neither is reached.
 */
module BeanTypes {
  import opened Wrappers
  import opened TypeModel

  /**
   * Every wrapper met while unwrapping `t` is parameterized: an iterable has
   * a first type argument and a map (that is not iterable) a second one.  A
   * raw wrapper has no type arguments to unwrap and is outside the domain.
   */
  predicate Unwrappable(t: JType)
    decreases t
  {
    match t
    case NonClassType(_) => true
    case ClassOrInterface(c) =>
      if c.isIterable then |c.typeArgs| >= 1 && Unwrappable(c.typeArgs[0])
      else if c.isMap then |c.typeArgs| >= 2 && Unwrappable(c.typeArgs[1])
      else true
  }

  /** A class type the extractor keeps as it is: neither iterable nor map. */
  predicate IsPayload(c: ClassType)
  {
    !c.isIterable && !c.isMap
  }

  /**
   * Models `extractBeanType`: `None` for a type that is not a class or
   * interface; the iterable test comes before the map test.
   */
  function ExtractBeanType(t: JType): (r: Option<ClassType>)
    requires Unwrappable(t)
    ensures t.NonClassType? ==> r.None?
    ensures t.ClassOrInterface? && IsPayload(t.classType) ==> r == Some(t.classType)
    ensures r.Some? ==> IsPayload(r.value)
    decreases t
  {
    match t
    case NonClassType(_) => None
    case ClassOrInterface(c) =>
      if c.isIterable then ExtractBeanType(c.typeArgs[0])
      else if c.isMap then ExtractBeanType(c.typeArgs[1])
      else Some(c)
  }

  /** `t` is `c` itself, or `c` occurs somewhere among the (nested) type arguments of `t`. */
  ghost predicate OccursIn(c: ClassType, t: JType)
    decreases t
  {
    match t
    case NonClassType(_) => false
    case ClassOrInterface(d) =>
      d == c || exists i :: 0 <= i < |d.typeArgs| && OccursIn(c, d.typeArgs[i])
  }

  /** The extracted bean type is always found inside the type it was extracted from. */
  lemma {:induction false} ExtractedOccursIn(t: JType)
    requires Unwrappable(t) && ExtractBeanType(t).Some?
    ensures OccursIn(ExtractBeanType(t).value, t)
    decreases t
  {
    var c := t.classType;
    if c.isIterable {
      ExtractedOccursIn(c.typeArgs[0]);
    } else if c.isMap {
      ExtractedOccursIn(c.typeArgs[1]);
    }
  }

  /** Extraction is idempotent: the bean type of a bean type is itself. */
  lemma ExtractIdempotent(t: JType)
    requires Unwrappable(t) && ExtractBeanType(t).Some?
    ensures Unwrappable(ClassOrInterface(ExtractBeanType(t).value))
    ensures ExtractBeanType(ClassOrInterface(ExtractBeanType(t).value)) == ExtractBeanType(t)
  {
  }

  /** Iterable types are unwrapped through their first type argument, even when they are also maps. */
  lemma IterableUnwrapsFirstArgument(c: ClassType)
    requires c.isIterable && |c.typeArgs| >= 1 && Unwrappable(c.typeArgs[0])
    ensures Unwrappable(ClassOrInterface(c))
    ensures ExtractBeanType(ClassOrInterface(c)) == ExtractBeanType(c.typeArgs[0])
  {
  }

  /** The key type of a map never influences the extracted bean type. */
  lemma MapKeyIgnored(c: ClassType, key: JType)
    requires !c.isIterable && c.isMap && |c.typeArgs| >= 2 && Unwrappable(c.typeArgs[1])
    ensures Unwrappable(ClassOrInterface(c.(typeArgs := [key] + c.typeArgs[1..])))
    ensures ExtractBeanType(ClassOrInterface(c.(typeArgs := [key] + c.typeArgs[1..])))
         == ExtractBeanType(c.typeArgs[1])
  {
    var c' := c.(typeArgs := [key] + c.typeArgs[1..]);
    assert c'.typeArgs[1] == c.typeArgs[1];
  }

  /** Nested wrappers are peeled one by one: a list of maps yields the bean type of the map values. */
  lemma IterableOfMapUnwrapsValue(list: ClassType, m: ClassType)
    requires list.isIterable && |list.typeArgs| >= 1 && list.typeArgs[0] == ClassOrInterface(m)
    requires !m.isIterable && m.isMap && |m.typeArgs| >= 2 && Unwrappable(m.typeArgs[1])
    ensures Unwrappable(ClassOrInterface(list))
    ensures ExtractBeanType(ClassOrInterface(list)) == ExtractBeanType(m.typeArgs[1])
  {
  }
}
