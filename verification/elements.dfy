/**
 * The annotation-processing view of a program: elements (packages and type
 * declarations) and the type mirrors that appear as their supertypes.  Only
 * what the reader generator queries is kept.
 */
module Elements {
  import opened Wrappers

  /** A type as the processor sees it. */
  datatype TypeMirror =
    | Declared(declared: DeclaredType)
      /** A type variable; its element is the type parameter. */
    | TypeVariable(name: string)
      /** A primitive, array or wildcard type: there is no element behind it. */
    | NoElementType(text: string)

  /** A class or interface type with its (possibly empty) list of type arguments. */
  datatype DeclaredType = DeclaredType(qualifiedName: string, simpleName: string, typeArgs: seq<TypeMirror>)

  /**
   * A package, or a type declaration.  A type's enclosing element is the
   * package for a top-level type and the enclosing type for a nested one; a
   * package has no enclosing element.
   */
  datatype Element =
    | PackageElement(qualifiedName: string)
    | TypeElement(
        name: string,
        enclosing: Element,
        annotations: set<string>,
        interfaces: seq<DeclaredType>)

  /**
   * The part of a dotted name after its last dot (all of it when there is
   * no dot).
   */
  function LastSegment(name: string): (r: string)
    ensures '.' !in r
    ensures |r| <= |name| && r == name[|name| - |r|..]
    ensures |r| < |name| ==> name[|name| - |r| - 1] == '.'
  {
    if |name| == 0 then ""
    else if name[|name| - 1] == '.' then ""
    else LastSegment(name[..|name| - 1]) + [name[|name| - 1]]
  }

  /** A dotted name is its prefix, a dot and its last segment. */
  lemma LastSegmentSplits(name: string)
    requires '.' in name
    ensures exists prefix :: name == prefix + "." + LastSegment(name)
  {
    var r := LastSegment(name);
    var prefix := name[..|name| - |r| - 1];
    assert name == prefix + "." + r;
  }

  /** The simple name of an element; for a package the last segment of its name (empty for the unnamed package). */
  function SimpleName(e: Element): string
  {
    match e
    case PackageElement(q) => LastSegment(q)
    case TypeElement(n, _, _, _) => n
  }

  /** The enclosing element, `None` standing for `null`. */
  function EnclosingElement(e: Element): Option<Element>
  {
    match e
    case PackageElement(_) => None
    case TypeElement(_, enc, _, _) => Some(enc)
  }

  /** The qualified name of the package an element belongs to. */
  function PackageOf(e: Element): string
  {
    match e
    case PackageElement(q) => q
    case TypeElement(_, enc, _, _) => PackageOf(enc)
  }

  /** The canonical name of an element: its enclosing element's name, a dot, its simple name. */
  function QualifiedName(e: Element): string
  {
    match e
    case PackageElement(q) => q
    case TypeElement(n, enc, _, _) =>
      var outer := QualifiedName(enc);
      if outer == "" then n else outer + "." + n
  }
}
