/**
 * The static type model the generator reads: class/interface types with their
 * annotations, superclass, implemented interfaces and type arguments, and the
 * accessor record of one bean property.  The host compiler's type oracle is
 * reduced to the two flags `isIterable` and `isMap`, taken as whatever the
 * oracle answers for the type.
 */
module TypeModel {
  import opened Wrappers

  /** Canonical name of an annotation type. */
  type AnnotationKind = string

  /**
   * An annotation instance.  Its kind is the key it is stored under in
   * `Annotations`; its attribute values are opaque to the lookup rules.
   */
  datatype Annotation = Annotation(attributes: map<string, string>)

  /** The annotations present on one declaration, at most one instance per kind. */
  type Annotations = map<AnnotationKind, Annotation>

  const ObjectName: string := "java.lang.Object"

  /**
   * A class or interface type.  The type arguments are those of its
   * parameterization (empty for a raw or non-generic type).
   */
  datatype ClassType = ClassType(
    qualifiedName: string,
    annotations: Annotations,
    superclass: Option<ClassType>,
    interfaces: seq<ClassType>,
    typeArgs: seq<JType>,
    isIterable: bool,
    isMap: bool)
  {
    /** The root of every class hierarchy, where hierarchy walks stop. */
    predicate IsObject() {
      qualifiedName == ObjectName
    }
  }

  /** Any type: class or interface types, and everything else (primitives, arrays, type variables, wildcards). */
  datatype JType =
    | NonClassType(name: string)
    | ClassOrInterface(classType: ClassType)

  /** A field, getter or setter, reduced to its name and annotations. */
  datatype Accessor = Accessor(name: string, annotations: Annotations)

  /**
   * The accessors of one logical bean property: the chosen getter, setter and
   * field (each possibly absent) and every candidate getter and setter found
   * across the hierarchy.
   */
  datatype FieldAccessors = FieldAccessors(
    getter: Option<Accessor>,
    setter: Option<Accessor>,
    field: Option<Accessor>,
    getters: seq<Accessor>,
    setters: seq<Accessor>)

  /** The annotations of each declaration, in the same order. */
  function AnnotationsOf<T>(declarations: seq<T>, annotations: T -> Annotations): (r: seq<Annotations>)
    ensures |r| == |declarations|
    ensures forall i :: 0 <= i < |declarations| ==> r[i] == annotations(declarations[i])
  {
    seq(|declarations|, i requires 0 <= i < |declarations| => annotations(declarations[i]))
  }

  /** The annotations of each type, in the same order. */
  function TypeAnnotations(types: seq<ClassType>): seq<Annotations>
  {
    AnnotationsOf(types, (c: ClassType) => c.annotations)
  }

  /** The annotations of each accessor, in the same order. */
  function AccessorAnnotations(accessors: seq<Accessor>): seq<Annotations>
  {
    AnnotationsOf(accessors, (a: Accessor) => a.annotations)
  }

  /**
   * The `kind` annotation of the first declaration in `candidates` that
   * carries one: "first match wins".
   */
  function FirstAnnotation(candidates: seq<Annotations>, kind: AnnotationKind): (r: Option<Annotation>)
    ensures r.None? <==> forall i :: 0 <= i < |candidates| ==> kind !in candidates[i]
    ensures r.Some? ==>
      exists i :: 0 <= i < |candidates| && kind in candidates[i] && candidates[i][kind] == r.value
        && forall j :: 0 <= j < i ==> kind !in candidates[j]
  {
    if |candidates| == 0 then None
    else if kind in candidates[0] then Some(candidates[0][kind])
    else
      var rest := FirstAnnotation(candidates[1..], kind);
      assert forall i :: 1 <= i < |candidates| ==> candidates[i] == candidates[1..][i - 1];
      rest
  }

  /** The first match in a concatenation comes from the left part when it has one. */
  lemma {:induction false} FirstAnnotationAppend(a: seq<Annotations>, b: seq<Annotations>, kind: AnnotationKind)
    ensures FirstAnnotation(a + b, kind)
         == if FirstAnnotation(a, kind).Some? then FirstAnnotation(a, kind) else FirstAnnotation(b, kind)
  {
    if |a| > 0 {
      assert (a + b)[0] == a[0];
      assert (a + b)[1..] == a[1..] + b;
      FirstAnnotationAppend(a[1..], b, kind);
    } else {
      assert a + b == b;
    }
  }

  /** A carrier with no earlier carrier is the one whose annotation is returned. */
  lemma FirstAnnotationAt(candidates: seq<Annotations>, i: nat, kind: AnnotationKind)
    requires i < |candidates| && kind in candidates[i]
    requires forall j :: 0 <= j < i ==> kind !in candidates[j]
    ensures FirstAnnotation(candidates, kind) == Some(candidates[i][kind])
  {
    var r := FirstAnnotation(candidates, kind);
    var k :| 0 <= k < |candidates| && kind in candidates[k] && candidates[k][kind] == r.value
        && forall j :: 0 <= j < k ==> kind !in candidates[j];
    assert k == i;
  }
}
