/**
 * Names and statement texts of the classes generated for a reader
 * declaration: the entry class implementing the declaration and the backing
 * bean deserializer it instantiates.
 */
module MapperNaming {
  import opened Wrappers
  import opened Elements
  import opened CodeFormat

  /** The postfix the reader generator appends to the enclosing element's name. */
  const EnclosingPostfix: string := "_"
  const EntrySuffix: string := "Impl"
  const BackingSuffix: string := "BeanJsonDeserializerImpl"

  /**
   * Models `enclosingName`: empty when the element has no enclosing element,
   * otherwise the simple name of the immediately enclosing element followed
   * by `postfix`.  Only one level is looked at, and for a top-level type that
   * level is its package.
   */
  function EnclosingName(e: Element, postfix: string): (r: string)
    ensures EnclosingElement(e).None? ==> r == ""
    ensures EnclosingElement(e).Some? ==>
      && |r| == |SimpleName(EnclosingElement(e).value)| + |postfix|
      && r[..|r| - |postfix|] == SimpleName(EnclosingElement(e).value)
      && r[|r| - |postfix|..] == postfix
  {
    match EnclosingElement(e)
    case None => ""
    case Some(enclosing) => SimpleName(enclosing) + postfix
  }

  /** The entry class name built in `generateReader`. */
  function EntryClassName(e: Element): string
  {
    EnclosingName(e, EnclosingPostfix) + SimpleName(e) + EntrySuffix
  }

  /**
   * The entry class name splits back into the enclosing prefix, the
   * declaration's simple name and the `Impl` suffix.
   */
  lemma EntryClassNameParts(e: Element)
    ensures var r := EntryClassName(e);
      var p := EnclosingName(e, EnclosingPostfix);
      && |r| == |p| + |SimpleName(e)| + |EntrySuffix|
      && r[..|p|] == p
      && r[|p|..|r| - |EntrySuffix|] == SimpleName(e)
      && r[|r| - |EntrySuffix|..] == EntrySuffix
  {
    var r := EntryClassName(e);
    var p := EnclosingName(e, EnclosingPostfix);
    assert r == p + SimpleName(e) + EntrySuffix;
    assert r[..|p|] == p;
    assert r[|p|..|r| - |EntrySuffix|] == SimpleName(e);
  }

  /**
   * A top-level declaration is prefixed with the last segment of its
   * package name, because its enclosing element is the package.
   */
  lemma TopLevelEntryClassName(name: string, pkg: string, annotations: set<string>, interfaces: seq<DeclaredType>)
    ensures EntryClassName(TypeElement(name, PackageElement(pkg), annotations, interfaces))
         == LastSegment(pkg) + "_" + name + "Impl"
  {
  }

  /** A nested declaration is prefixed with the simple name of the type directly around it. */
  lemma NestedEntryClassName(name: string, outer: string, around: Element, outerAnns: set<string>,
                             outerIfs: seq<DeclaredType>, annotations: set<string>, interfaces: seq<DeclaredType>)
    ensures EntryClassName(TypeElement(name, TypeElement(outer, around, outerAnns, outerIfs), annotations, interfaces))
         == outer + "_" + name + "Impl"
  {
  }

  /**
   * One level only: two declarations with the same simple name whose
   * enclosing elements have the same simple name get the same entry class
   * name, whatever lies further out.
   */
  lemma EntryClassNameOneLevel(e1: Element, e2: Element)
    requires e1.TypeElement? && e2.TypeElement?
    requires e1.name == e2.name && SimpleName(e1.enclosing) == SimpleName(e2.enclosing)
    ensures EntryClassName(e1) == EntryClassName(e2)
  {
  }

  /**
   * Within one enclosing prefix the entry class name determines the
   * declaration's simple name.
   */
  lemma EntryClassNameInjective(e1: Element, e2: Element)
    requires EnclosingName(e1, EnclosingPostfix) == EnclosingName(e2, EnclosingPostfix)
    requires EntryClassName(e1) == EntryClassName(e2)
    ensures SimpleName(e1) == SimpleName(e2)
  {
    EntryClassNameParts(e1);
    EntryClassNameParts(e2);
  }

  /**
   * Two different declarations of one package can be given the same entry
   * class name: `p.A.B.XReader` and `p.C.B.XReader` both become `B_XReaderImpl`.
   */
  lemma EntryClassNamesCanCollide()
    ensures exists e1: Element, e2: Element ::
      && e1 != e2 && PackageOf(e1) == PackageOf(e2)
      && EntryClassName(e1) == EntryClassName(e2)
  {
    var p := PackageElement("p");
    var a := TypeElement("A", p, {}, []);
    var c := TypeElement("C", p, {}, []);
    var e1 := TypeElement("XReader", TypeElement("B", a, {}, []), {}, []);
    var e2 := TypeElement("XReader", TypeElement("B", c, {}, []), {}, []);
    EntryClassNameOneLevel(e1, e2);
    assert e1.enclosing.enclosing != e2.enclosing.enclosing;
  }

  /** The backing deserializer class name built in `makeBeanDeserializer`. */
  function BackingClassName(beanName: string): (r: string)
    ensures |r| == |beanName| + |BackingSuffix|
    ensures r[..|beanName|] == beanName && r[|beanName|..] == BackingSuffix
  {
    beanName + BackingSuffix
  }

  /** Different bean names give different backing class names. */
  lemma BackingClassNameInjective(b1: string, b2: string)
    requires BackingClassName(b1) == BackingClassName(b2)
    ensures b1 == b2
  {
    var r := BackingClassName(b1);
    assert b1 == r[..|b1|];
  }

  /** The statement of the entry constructor, passing the bean name as label. */
  function ConstructorStatement(beanName: string): string
  {
    "super(\"" + beanName + "\")"
  }

  /** The statement of `getDeserializedType` in the backing class. */
  function DeserializedTypeStatement(beanName: string): string
  {
    "return " + beanName + ".class"
  }

  /** The statement of `newDeserializer` in the entry class, as the generator concatenates it. */
  function NewDeserializerStatement(beanName: string): string
  {
    "return new " + beanName + "BeanJsonDeserializerImpl()"
  }

  /**
   * Each of the three statements built around the bean name is accepted by
   * the code writer exactly when the bean name alone is: the text around it
   * holds no `$` and cannot complete a directive the name leaves open.
   */
  lemma StatementsAcceptedWithName(beanName: string)
    ensures AcceptedWithoutArgs(DeserializedTypeStatement(beanName)) == AcceptedWithoutArgs(beanName)
    ensures AcceptedWithoutArgs(ConstructorStatement(beanName)) == AcceptedWithoutArgs(beanName)
    ensures AcceptedWithoutArgs(NewDeserializerStatement(beanName)) == AcceptedWithoutArgs(beanName)
  {
    AcceptedBeforePlainSuffix("return " + beanName, ".class");
    AcceptedAfterPlainPrefix("return ", beanName);
    AcceptedBeforePlainSuffix("super(\"" + beanName, "\")");
    AcceptedAfterPlainPrefix("super(\"", beanName);
    AcceptedBeforePlainSuffix("return new " + beanName, "BeanJsonDeserializerImpl()");
    AcceptedAfterPlainPrefix("return new ", beanName);
  }

  /** The statement of `initInstanceBuilder` in the backing class; `$T` is filled with the deserializers map type. */
  const InitInstanceBuilderFormat: string := "final $T deserializers = null"

  /**
   * The class a `return new X()` statement instantiates, `None` when the
   * statement does not have that shape.
   */
  function InstantiatedClass(statement: string): (r: Option<string>)
    ensures r.Some? ==> statement == "return new " + r.value + "()"
  {
    if |statement| >= 13 && statement[..11] == "return new " && statement[|statement| - 2..] == "()"
    then
      var name := statement[11..|statement| - 2];
      assert statement == statement[..11] + name + statement[|statement| - 2..];
      Some(name)
    else None
  }

  /** The literal in a `super("…")` statement, `None` when the statement does not have that shape. */
  function SuperLabel(statement: string): (r: Option<string>)
    ensures r.Some? ==> statement == "super(\"" + r.value + "\")"
  {
    if |statement| >= 9 && statement[..7] == "super(\"" && statement[|statement| - 2..] == "\")"
    then
      var text := statement[7..|statement| - 2];
      assert statement == statement[..7] + text + statement[|statement| - 2..];
      Some(text)
    else None
  }

  /** The entry class's `newDeserializer` instantiates exactly the backing class. */
  lemma NewDeserializerInstantiatesBacking(beanName: string)
    ensures InstantiatedClass(NewDeserializerStatement(beanName)) == Some(BackingClassName(beanName))
  {
    var s := NewDeserializerStatement(beanName);
    assert s == "return new " + BackingClassName(beanName) + "()";
    assert s[..11] == "return new ";
    assert s[|s| - 2..] == "()";
    assert s[11..|s| - 2] == BackingClassName(beanName);
  }

  /** The entry constructor passes exactly the bean name as its label. */
  lemma ConstructorLabelIsBeanName(beanName: string)
    ensures SuperLabel(ConstructorStatement(beanName)) == Some(beanName)
  {
    var s := ConstructorStatement(beanName);
    assert s[..7] == "super(\"";
    assert s[|s| - 2..] == "\")";
    assert s[7..|s| - 2] == beanName;
  }
}
