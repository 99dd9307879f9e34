/**
 * The two annotation searches of the generator: over the whole hierarchy of a
 * type (the type itself, then its interfaces depth-first in declaration
 * order, then its superclass, never `java.lang.Object`), and over the
 * accessors of one bean property in a fixed priority order.
 */
module AnnotationLookup {
  import opened Wrappers
  import opened TypeModel

  // ---------------------------------------------------------------------
  // Hierarchy search
  // ---------------------------------------------------------------------

  /**
   * The types examined by a hierarchy search started at `c`, in the order
   * they are examined: `c`, then the walk of each implemented interface in
   * declaration order, then the walk of the superclass.  A walk reaching
   * `java.lang.Object` examines nothing there.
   */
  function Walk(c: ClassType): seq<ClassType>
    decreases c, |c.interfaces| + 1
  {
    if c.IsObject() then []
    else [c] + (InterfaceWalk(c, 0) + SuperWalk(c))
  }

  /** The walks of the interfaces of `c` from the `i`-th one on, concatenated. */
  function InterfaceWalk(c: ClassType, i: nat): seq<ClassType>
    requires i <= |c.interfaces|
    decreases c, |c.interfaces| - i
  {
    if i == |c.interfaces| then [] else Walk(c.interfaces[i]) + InterfaceWalk(c, i + 1)
  }

  /** The walk from a possibly absent (null) start type. */
  function SearchOrder(t: Option<ClassType>): seq<ClassType>
  {
    match t
    case None => []
    case Some(c) => Walk(c)
  }

  /** Reference result of the hierarchy search: the first annotation met along the walk. */
  function HierarchyAnnotation(t: Option<ClassType>, kind: AnnotationKind): Option<Annotation>
  {
    FirstAnnotation(TypeAnnotations(SearchOrder(t)), kind)
  }

  /**
   * `d` is reachable from `c` through superclass and implemented-interface
   * edges without passing through `java.lang.Object`.
   */
  ghost predicate Reaches(c: ClassType, d: ClassType)
    decreases c
  {
    && !c.IsObject()
    && (|| c == d
        || (exists i :: 0 <= i < |c.interfaces| && Reaches(c.interfaces[i], d))
        || (c.superclass.Some? && Reaches(c.superclass.value, d)))
  }

  ghost predicate ReachesFrom(t: Option<ClassType>, d: ClassType)
  {
    t.Some? && Reaches(t.value, d)
  }

  /** The first annotation of kind `kind` met along a sequence of types. */
  function FirstOnTypes(types: seq<ClassType>, kind: AnnotationKind): Option<Annotation>
  {
    FirstAnnotation(TypeAnnotations(types), kind)
  }

  /** The search over a concatenated walk is decided by the left part when it finds something. */
  lemma FirstOnTypesAppend(a: seq<ClassType>, b: seq<ClassType>, kind: AnnotationKind)
    ensures FirstOnTypes(a + b, kind)
         == if FirstOnTypes(a, kind).Some? then FirstOnTypes(a, kind) else FirstOnTypes(b, kind)
  {
    assert TypeAnnotations(a + b) == TypeAnnotations(a) + TypeAnnotations(b);
    FirstAnnotationAppend(TypeAnnotations(a), TypeAnnotations(b), kind);
  }

  /** The walk above the superclass of `c` (empty when there is none). */
  function SuperWalk(c: ClassType): seq<ClassType>
    decreases c, 0
  {
    match c.superclass
    case None => []
    case Some(s) => Walk(s)
  }

  /** One level of the walk: the type's own annotation first, else the interfaces then the superclass. */
  lemma WalkLevel(c: ClassType, kind: AnnotationKind)
    requires !c.IsObject()
    ensures |Walk(c)| == 1 + |InterfaceWalk(c, 0)| + |SuperWalk(c)|
    ensures HierarchyAnnotation(Some(c), kind)
         == if kind in c.annotations then Some(c.annotations[kind])
            else FirstOnTypes(InterfaceWalk(c, 0) + SuperWalk(c), kind)
  {
    FirstOnTypesAppend([c], InterfaceWalk(c, 0) + SuperWalk(c), kind);
    assert TypeAnnotations([c])[0] == c.annotations;
  }

  /** One interface of a level: its own walk decides the result when it finds something. */
  lemma InterfaceStep(c: ClassType, i: nat, rest: seq<ClassType>, kind: AnnotationKind)
    requires i < |c.interfaces|
    ensures |InterfaceWalk(c, i)| == |Walk(c.interfaces[i])| + |InterfaceWalk(c, i + 1)|
    ensures FirstOnTypes(InterfaceWalk(c, i) + rest, kind)
         == if HierarchyAnnotation(Some(c.interfaces[i]), kind).Some? then HierarchyAnnotation(Some(c.interfaces[i]), kind)
            else FirstOnTypes(InterfaceWalk(c, i + 1) + rest, kind)
  {
    assert InterfaceWalk(c, i) + rest == Walk(c.interfaces[i]) + (InterfaceWalk(c, i + 1) + rest);
    FirstOnTypesAppend(Walk(c.interfaces[i]), InterfaceWalk(c, i + 1) + rest, kind);
  }

  /** One step of the interface loop of `c`: the `i`-th interface's search decides when it finds something. */
  lemma InterfaceLoopStep(c: ClassType, i: nat, kind: AnnotationKind)
    requires i < |c.interfaces|
    ensures |InterfaceWalk(c, i)| == |Walk(c.interfaces[i])| + |InterfaceWalk(c, i + 1)|
    ensures FirstOnTypes(InterfaceWalk(c, i), kind)
         == if HierarchyAnnotation(Some(c.interfaces[i]), kind).Some? then HierarchyAnnotation(Some(c.interfaces[i]), kind)
            else FirstOnTypes(InterfaceWalk(c, i + 1), kind)
  {
    FirstOnTypesAppend(Walk(c.interfaces[i]), InterfaceWalk(c, i + 1), kind);
  }

  /**
   * Models `findFirstEncounteredAnnotationsOnAllHierarchy`: climbs the
   * superclass chain; at each level returns the type's own annotation if
   * present, otherwise the first hit of the recursive searches of its
   * implemented interfaces.
   */
  method FindFirstEncounteredAnnotationsOnAllHierarchy(t: Option<ClassType>, kind: AnnotationKind)
    returns (r: Option<Annotation>)
    ensures r == HierarchyAnnotation(t, kind)
    decreases |SearchOrder(t)|, 0
  {
    ghost var goal := HierarchyAnnotation(t, kind);
    ghost var bound := |SearchOrder(t)|;
    var current := t;
    while current.Some? && !current.value.IsObject()
      invariant |SearchOrder(current)| <= bound
      invariant HierarchyAnnotation(current, kind) == goal
      decreases |SearchOrder(current)|
    {
      var c := current.value;
      WalkLevel(c, kind);
      if kind in c.annotations {
        return Some(c.annotations[kind]);
      }
      assert SearchOrder(current) == Walk(c);
      var annot := FindOnInterfaces(c, kind);
      FirstOnTypesAppend(InterfaceWalk(c, 0), SuperWalk(c), kind);
      if annot.Some? {
        return annot;
      }
      assert SearchOrder(c.superclass) == SuperWalk(c);
      current := c.superclass;
    }
    return None;
  }

  /**
   * The interface loop of one level: searches each implemented interface of
   * `c` in declaration order and returns the first hit.
   */
  method FindOnInterfaces(c: ClassType, kind: AnnotationKind) returns (r: Option<Annotation>)
    ensures r == FirstOnTypes(InterfaceWalk(c, 0), kind)
    decreases |InterfaceWalk(c, 0)|, 1
  {
    ghost var goal := FirstOnTypes(InterfaceWalk(c, 0), kind);
    var i := 0;
    while i < |c.interfaces|
      invariant 0 <= i <= |c.interfaces|
      invariant |InterfaceWalk(c, i)| <= |InterfaceWalk(c, 0)|
      invariant FirstOnTypes(InterfaceWalk(c, i), kind) == goal
    {
      var interf := c.interfaces[i];
      InterfaceLoopStep(c, i, kind);
      var annot := FindFirstEncounteredAnnotationsOnAllHierarchy(Some(interf), kind);
      if annot.Some? {
        return annot;
      }
      i := i + 1;
    }
    return None;
  }

  /**
   * The ends of the search: a null start or `java.lang.Object` gives no
   * annotation; an annotated start type other than `java.lang.Object` gives
   * its own.
   */
  lemma HierarchySearchStart(t: Option<ClassType>, kind: AnnotationKind)
    ensures t.None? ==> HierarchyAnnotation(t, kind).None?
    ensures t.Some? && t.value.IsObject() ==> HierarchyAnnotation(t, kind).None?
    ensures t.Some? && !t.value.IsObject() && kind in t.value.annotations
      ==> HierarchyAnnotation(t, kind) == Some(t.value.annotations[kind])
  {
    if t.Some? && !t.value.IsObject() {
      WalkLevel(t.value, kind);
    }
  }

  /** Every type on a walk is reachable from its start, and every reachable type is on it. */
  lemma {:induction false} WalkIsReachable(c: ClassType, d: ClassType)
    ensures d in Walk(c) <==> Reaches(c, d)
    decreases c, |c.interfaces| + 1
  {
    if !c.IsObject() {
      InterfaceWalkIsReachable(c, 0, d);
      match c.superclass
      case None =>
      case Some(s) => WalkIsReachable(s, d);
    }
  }

  lemma {:induction false} InterfaceWalkIsReachable(c: ClassType, i: nat, d: ClassType)
    requires i <= |c.interfaces|
    ensures d in InterfaceWalk(c, i) <==> exists j :: i <= j < |c.interfaces| && Reaches(c.interfaces[j], d)
    decreases c, |c.interfaces| - i
  {
    if i < |c.interfaces| {
      WalkIsReachable(c.interfaces[i], d);
      InterfaceWalkIsReachable(c, i + 1, d);
    }
  }

  /**
   * Soundness: a found annotation is the annotation of some type reachable
   * from the start type; that type is never `java.lang.Object`.
   */
  lemma HierarchySearchSound(t: Option<ClassType>, kind: AnnotationKind)
    requires HierarchyAnnotation(t, kind).Some?
    ensures exists d :: (ReachesFrom(t, d) && !d.IsObject() && kind in d.annotations
                          && d.annotations[kind] == HierarchyAnnotation(t, kind).value)
  {
    var order := SearchOrder(t);
    var anns := TypeAnnotations(order);
    var i :| 0 <= i < |anns| && kind in anns[i] && anns[i][kind] == HierarchyAnnotation(t, kind).value;
    WalkIsReachable(t.value, order[i]);
    ReachedIsNotObject(t.value, order[i]);
  }

  /** `java.lang.Object` is never reached: every walk stops before it. */
  lemma {:induction false} ReachedIsNotObject(c: ClassType, d: ClassType)
    requires Reaches(c, d)
    ensures !d.IsObject()
    decreases c
  {
    if c != d {
      if i :| 0 <= i < |c.interfaces| && Reaches(c.interfaces[i], d) {
        ReachedIsNotObject(c.interfaces[i], d);
      } else {
        ReachedIsNotObject(c.superclass.value, d);
      }
    }
  }

  /** Completeness: when a reachable type carries the annotation, the search finds one. */
  lemma HierarchySearchComplete(t: Option<ClassType>, kind: AnnotationKind, d: ClassType)
    requires ReachesFrom(t, d) && kind in d.annotations
    ensures HierarchyAnnotation(t, kind).Some?
  {
    WalkIsReachable(t.value, d);
    var order := SearchOrder(t);
    var i :| 0 <= i < |order| && order[i] == d;
    assert kind in TypeAnnotations(order)[i];
  }

  /**
   * Order at one level: when the type itself carries nothing, the first
   * interface (in declaration order) whose own search succeeds decides the
   * result, whatever the superclass carries.
   */
  lemma InterfaceBeatsSuperclass(c: ClassType, i: nat, kind: AnnotationKind)
    requires !c.IsObject() && kind !in c.annotations
    requires i < |c.interfaces| && HierarchyAnnotation(Some(c.interfaces[i]), kind).Some?
    requires forall j :: 0 <= j < i ==> HierarchyAnnotation(Some(c.interfaces[j]), kind).None?
    ensures HierarchyAnnotation(Some(c), kind) == HierarchyAnnotation(Some(c.interfaces[i]), kind)
  {
    WalkLevel(c, kind);
    InterfacePrefix(c, 0, i, SuperWalk(c), kind);
  }

  lemma {:induction false} InterfacePrefix(c: ClassType, k: nat, i: nat, rest: seq<ClassType>, kind: AnnotationKind)
    requires k <= i < |c.interfaces| && HierarchyAnnotation(Some(c.interfaces[i]), kind).Some?
    requires forall j :: k <= j < i ==> HierarchyAnnotation(Some(c.interfaces[j]), kind).None?
    ensures FirstOnTypes(InterfaceWalk(c, k) + rest, kind) == HierarchyAnnotation(Some(c.interfaces[i]), kind)
    decreases i - k
  {
    InterfaceStep(c, k, rest, kind);
    var here := HierarchyAnnotation(Some(c.interfaces[k]), kind);
    if k == i {
      assert here.Some?;
      assert FirstOnTypes(InterfaceWalk(c, k) + rest, kind) == here;
    } else {
      assert here.None?;
      assert FirstOnTypes(InterfaceWalk(c, k) + rest, kind) == FirstOnTypes(InterfaceWalk(c, k + 1) + rest, kind);
      InterfacePrefix(c, k + 1, i, rest, kind);
    }
  }

  /**
   * A subtype and its superclass both carrying the annotation: the subtype's
   * instance is returned.
   */
  lemma SubtypeBeatsSuperclass(c: ClassType, kind: AnnotationKind)
    requires !c.IsObject() && kind in c.annotations
    requires c.superclass.Some? && kind in c.superclass.value.annotations
    ensures HierarchyAnnotation(Some(c), kind) == Some(c.annotations[kind])
  {
    WalkLevel(c, kind);
  }

  // ---------------------------------------------------------------------
  // Accessor search
  // ---------------------------------------------------------------------

  function Present(a: Option<Accessor>): seq<Accessor>
  {
    match a
    case None => []
    case Some(x) => [x]
  }

  /**
   * The accessors of a property in priority order: getter, setter, field
   * (each only when present), then every candidate getter, then every
   * candidate setter.
   */
  function AccessorOrder(fa: FieldAccessors): seq<Accessor>
  {
    Present(fa.getter) + (Present(fa.setter) + (Present(fa.field) + (fa.getters + fa.setters)))
  }

  /** Reference result of the accessor search: the first annotation met in priority order. */
  function AccessorAnnotation(fa: FieldAccessors, kind: AnnotationKind): Option<Annotation>
  {
    FirstOnAccessors(AccessorOrder(fa), kind)
  }

  function FirstOnAccessors(accessors: seq<Accessor>, kind: AnnotationKind): Option<Annotation>
  {
    FirstAnnotation(AccessorAnnotations(accessors), kind)
  }

  predicate CarriesKind(a: Option<Accessor>, kind: AnnotationKind)
  {
    a.Some? && kind in a.value.annotations
  }

  lemma FirstOnAccessorsCons(accessors: seq<Accessor>, kind: AnnotationKind)
    requires |accessors| > 0
    ensures FirstOnAccessors(accessors, kind)
         == if kind in accessors[0].annotations then Some(accessors[0].annotations[kind])
            else FirstOnAccessors(accessors[1..], kind)
  {
    assert AccessorAnnotations(accessors)[1..] == AccessorAnnotations(accessors[1..]);
  }

  /** An optional slot is consulted before everything after it, and skipped when absent. */
  lemma FirstOnAccessorsSlot(a: Option<Accessor>, rest: seq<Accessor>, kind: AnnotationKind)
    ensures FirstOnAccessors(Present(a) + rest, kind)
         == if CarriesKind(a, kind) then Some(a.value.annotations[kind]) else FirstOnAccessors(rest, kind)
  {
    if a.Some? {
      FirstOnAccessorsCons(Present(a) + rest, kind);
      assert (Present(a) + rest)[1..] == rest;
    } else {
      assert Present(a) + rest == rest;
    }
  }

  /**
   * Models `findAnnotationOnAnyAccessor`: absent getter, setter or field are
   * skipped; the first accessor in priority order carrying the annotation
   * gives the result.
   */
  method FindAnnotationOnAnyAccessor(fa: FieldAccessors, kind: AnnotationKind) returns (r: Option<Annotation>)
    ensures r == AccessorAnnotation(fa, kind)
  {
    SlotsFirst(fa, kind);
    if fa.getter.Some? && kind in fa.getter.value.annotations {
      return Some(fa.getter.value.annotations[kind]);
    }
    if fa.setter.Some? && kind in fa.setter.value.annotations {
      return Some(fa.setter.value.annotations[kind]);
    }
    if fa.field.Some? && kind in fa.field.value.annotations {
      return Some(fa.field.value.annotations[kind]);
    }

    var i := 0;
    while i < |fa.getters|
      invariant 0 <= i <= |fa.getters|
      invariant AccessorAnnotation(fa, kind) == FirstOnAccessors(fa.getters[i..] + fa.setters, kind)
    {
      GetterStep(fa.getters, fa.setters, i, kind);
      if kind in fa.getters[i].annotations {
        return Some(fa.getters[i].annotations[kind]);
      }
      i := i + 1;
    }

    assert fa.getters[i..] + fa.setters == fa.setters;
    var j := 0;
    while j < |fa.setters|
      invariant 0 <= j <= |fa.setters|
      invariant AccessorAnnotation(fa, kind) == FirstOnAccessors(fa.setters[j..], kind)
    {
      SetterStep(fa.setters, j, kind);
      if kind in fa.setters[j].annotations {
        return Some(fa.setters[j].annotations[kind]);
      }
      j := j + 1;
    }
    return None;
  }

  /** The three single slots come first, each skipped when absent or unannotated. */
  lemma SlotsFirst(fa: FieldAccessors, kind: AnnotationKind)
    ensures AccessorAnnotation(fa, kind)
         == if CarriesKind(fa.getter, kind) then Some(fa.getter.value.annotations[kind])
            else if CarriesKind(fa.setter, kind) then Some(fa.setter.value.annotations[kind])
            else if CarriesKind(fa.field, kind) then Some(fa.field.value.annotations[kind])
            else FirstOnAccessors(fa.getters + fa.setters, kind)
  {
    var tail := fa.getters + fa.setters;
    FirstOnAccessorsSlot(fa.getter, Present(fa.setter) + (Present(fa.field) + tail), kind);
    FirstOnAccessorsSlot(fa.setter, Present(fa.field) + tail, kind);
    FirstOnAccessorsSlot(fa.field, tail, kind);
  }

  /**
   * One step of the getters loop: the `i`-th candidate getter decides when it
   * is annotated, otherwise the remaining getters and then the setters do.
   */
  lemma GetterStep(getters: seq<Accessor>, setters: seq<Accessor>, i: nat, kind: AnnotationKind)
    requires i < |getters|
    ensures FirstOnAccessors(getters[i..] + setters, kind)
         == if kind in getters[i].annotations then Some(getters[i].annotations[kind])
            else FirstOnAccessors(getters[i + 1..] + setters, kind)
  {
    DropFirst(getters, setters, i);
    FirstOnAccessorsCons(getters[i..] + setters, kind);
  }

  /** One step of the setters loop: the `j`-th candidate setter decides when it is annotated. */
  lemma SetterStep(setters: seq<Accessor>, j: nat, kind: AnnotationKind)
    requires j < |setters|
    ensures FirstOnAccessors(setters[j..], kind)
         == if kind in setters[j].annotations then Some(setters[j].annotations[kind])
            else FirstOnAccessors(setters[j + 1..], kind)
  {
  }

  lemma DropFirst(a: seq<Accessor>, b: seq<Accessor>, i: nat)
    requires i < |a|
    ensures (a[i..] + b)[0] == a[i]
    ensures (a[i..] + b)[1..] == a[i + 1..] + b
  {
  }

  /**
   * The priority order spelled out: getter over setter over field over the
   * candidate getters over the candidate setters, and no result exactly
   * when none of them carries the annotation.
   */
  lemma AccessorPriority(fa: FieldAccessors, kind: AnnotationKind)
    ensures AccessorAnnotation(fa, kind).None? <==>
      && !CarriesKind(fa.getter, kind) && !CarriesKind(fa.setter, kind) && !CarriesKind(fa.field, kind)
      && (forall i :: 0 <= i < |fa.getters| ==> kind !in fa.getters[i].annotations)
      && (forall i :: 0 <= i < |fa.setters| ==> kind !in fa.setters[i].annotations)
    ensures CarriesKind(fa.getter, kind) ==> AccessorAnnotation(fa, kind) == Some(fa.getter.value.annotations[kind])
    ensures !CarriesKind(fa.getter, kind) ==>
      AccessorAnnotation(fa, kind) == FirstOnAccessors(Present(fa.setter) + (Present(fa.field) + (fa.getters + fa.setters)), kind)
    ensures !CarriesKind(fa.getter, kind) && CarriesKind(fa.setter, kind)
      ==> AccessorAnnotation(fa, kind) == Some(fa.setter.value.annotations[kind])
    ensures !CarriesKind(fa.getter, kind) && !CarriesKind(fa.setter, kind) && CarriesKind(fa.field, kind)
      ==> AccessorAnnotation(fa, kind) == Some(fa.field.value.annotations[kind])
    ensures !CarriesKind(fa.getter, kind) && !CarriesKind(fa.setter, kind) && !CarriesKind(fa.field, kind)
      ==> AccessorAnnotation(fa, kind) == FirstOnAccessors(fa.getters + fa.setters, kind)
  {
    var tail := fa.getters + fa.setters;
    FirstOnAccessorsSlot(fa.getter, Present(fa.setter) + (Present(fa.field) + tail), kind);
    FirstOnAccessorsSlot(fa.setter, Present(fa.field) + tail, kind);
    FirstOnAccessorsSlot(fa.field, tail, kind);
    assert AccessorAnnotations(tail) == AccessorAnnotations(fa.getters) + AccessorAnnotations(fa.setters);
    assert forall i :: 0 <= i < |fa.getters| ==> tail[i] == fa.getters[i];
    assert forall i :: 0 <= i < |fa.setters| ==> tail[|fa.getters| + i] == fa.setters[i];
  }
}
