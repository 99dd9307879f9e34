/**
 * The generation plan of the object-mapper annotation processor: for each
 * declaration annotated with `JsonReader`, a backing bean deserializer class
 * and a public final entry class implementing the declaration, both written
 * into the declaration's package.  Source emission is reduced to the class,
 * method and statement descriptions handed to the code writer.
 */
module ReaderGeneration {
  import opened Wrappers
  import opened Elements
  import opened MapperNaming
  import opened CodeFormat

  const JsonReaderName: string := "com.github.nmorel.gwtjackson.client.annotation.JsonReader"
  const JsonWriterName: string := "com.github.nmorel.gwtjackson.client.annotation.JsonWriter"
  const JsonMapperName: string := "com.github.nmorel.gwtjackson.client.annotation.JsonMapper"

  const AbstractObjectReaderName: string := "com.github.nmorel.gwtjackson.client.AbstractObjectReader"
  const JsonDeserializerName: string := "com.github.nmorel.gwtjackson.client.JsonDeserializer"
  const AbstractBeanJsonDeserializerName: string := "com.github.nmorel.gwtjackson.client.deser.bean.AbstractBeanJsonDeserializer"
  const InstanceBuilderName: string := "com.github.nmorel.gwtjackson.client.deser.bean.InstanceBuilder"
  const SimpleStringMapName: string := "com.github.nmorel.gwtjackson.client.deser.bean.SimpleStringMap"
  const HasDeserializerAndParametersName: string := "com.github.nmorel.gwtjackson.client.deser.bean.HasDeserializerAndParameters"
  const ClassClassName: string := "java.lang.Class"
  const OverrideName: string := "java.lang.Override"

  /** The name a constructor is given in a method description. */
  const ConstructorName: string := "<init>"

  /**
   * Unchecked failures of the generator.  None of them is caught: each
   * escapes the round.
   */
  datatype ProcessorError =
      /** The annotated element is not a type declaration. */
    | NotATypeElement
      /** The declaration has no declared interface to take the bean type from. */
    | NoInterface
      /** The first declared interface has no type argument. */
    | RawInterface
      /** The bean type is a primitive, array or wildcard type, with no element to name it. */
    | NoElementForBeanType
      /** The bean name puts a `$` into a statement format where the code writer refuses it. */
    | MalformedStatement

  /** A type reference in generated code. */
  datatype TypeName =
    | ClassRef(qualifiedName: string)
    | Parameterized(raw: string, args: seq<TypeName>)
    | MirrorRef(mirror: TypeMirror)

  datatype Modifier = Public | Protected | Final

  /** A code statement: a format string whose `$T` placeholders are filled with `args`. */
  datatype Statement = Statement(format: string, args: seq<TypeName>)

  datatype MethodSpec = MethodSpec(
    name: string,
    modifiers: seq<Modifier>,
    annotations: seq<string>,
    returnType: Option<TypeName>,
    statements: seq<Statement>)

  datatype TypeSpec = TypeSpec(
    name: string,
    modifiers: seq<Modifier>,
    superclass: TypeName,
    superinterfaces: seq<TypeName>,
    methods: seq<MethodSpec>)

  /** A source file: one top-level class in a package. */
  datatype JavaFile = JavaFile(packageName: string, typeSpec: TypeSpec)

  /**
   * Models `getBeanType`: the first type argument of the declaration's first
   * declared interface, taken as it is (no collection or map unwrapping).
   */
  function GetBeanType(e: Element): (r: Result<TypeMirror, ProcessorError>)
    ensures r.Success? <==> e.TypeElement? && |e.interfaces| > 0 && |e.interfaces[0].typeArgs| > 0
    ensures r.Success? ==> r.value == e.interfaces[0].typeArgs[0]
  {
    if !e.TypeElement? then Failure(NotATypeElement)
    else if |e.interfaces| == 0 then Failure(NoInterface)
    else if |e.interfaces[0].typeArgs| == 0 then Failure(RawInterface)
    else Success(e.interfaces[0].typeArgs[0])
  }

  /** The simple name of the element behind the bean type. */
  function BeanName(beanType: TypeMirror): Result<string, ProcessorError>
  {
    match beanType
    case Declared(d) => Success(d.simpleName)
    case TypeVariable(n) => Success(n)
    case NoElementType(_) => Failure(NoElementForBeanType)
  }

  /** `name<beanType>`. */
  function Over(name: string, beanType: TypeMirror): TypeName
  {
    Parameterized(name, [MirrorRef(beanType)])
  }

  /** Models `makeBeanDeserializer`: the backing class, in the declaration's package. */
  function MakeBeanDeserializer(beanType: TypeMirror, beanName: string, packageName: string): JavaFile
  {
    var ctor := MethodSpec(ConstructorName, [Public], [], None, []);
    var getDeserializedType := MethodSpec("getDeserializedType", [Public], [OverrideName],
      Some(ClassRef(ClassClassName)), [Statement(DeserializedTypeStatement(beanName), [])]);
    var deserializersMap := Parameterized(SimpleStringMapName, [ClassRef(HasDeserializerAndParametersName)]);
    var initInstanceBuilder := MethodSpec("initInstanceBuilder", [Protected], [OverrideName],
      Some(Over(InstanceBuilderName, beanType)), [Statement(InitInstanceBuilderFormat, [deserializersMap])]);
    JavaFile(packageName,
      TypeSpec(BackingClassName(beanName), [Public, Final], Over(AbstractBeanJsonDeserializerName, beanType), [],
        [ctor, getDeserializedType, initInstanceBuilder]))
  }

  /** Models `makeConstructor`. */
  function MakeConstructor(beanName: string): MethodSpec
  {
    MethodSpec(ConstructorName, [Public], [], None, [Statement(ConstructorStatement(beanName), [])])
  }

  /** Models `makeNewDeserializerMethod`. */
  function MakeNewDeserializerMethod(beanType: TypeMirror, beanName: string): MethodSpec
  {
    MethodSpec("newDeserializer", [Protected], [OverrideName], Some(Over(JsonDeserializerName, beanType)),
      [Statement(NewDeserializerStatement(beanName), [])])
  }

  /** Models `abstractObjectReader`: the entry class's superclass. */
  function AbstractObjectReader(beanType: TypeMirror): TypeName
  {
    Over(AbstractObjectReaderName, beanType)
  }

  /** The entry class implementing the declaration. */
  function MakeEntryClass(e: Element, beanType: TypeMirror, beanName: string): JavaFile
  {
    JavaFile(PackageOf(e),
      TypeSpec(EntryClassName(e), [Public, Final], AbstractObjectReader(beanType), [ClassRef(QualifiedName(e))],
        [MakeConstructor(beanName), MakeNewDeserializerMethod(beanType, beanName)]))
  }

  /** The only statement of the method called `name` among `methods`, if there is exactly such a shape. */
  function StatementOf(methods: seq<MethodSpec>, name: string): Option<string>
  {
    if |methods| == 0 then None
    else if methods[0].name == name && |methods[0].statements| == 1 then Some(methods[0].statements[0].format)
    else StatementOf(methods[1..], name)
  }

  /** The declared return type of the method called `name` among `methods`. */
  function ReturnTypeOf(methods: seq<MethodSpec>, name: string): Option<TypeName>
  {
    if |methods| == 0 then None
    else if methods[0].name == name then methods[0].returnType
    else ReturnTypeOf(methods[1..], name)
  }

  /**
   * Models `generateReader`: the files in the order they are written (backing
   * class first, then entry class), or the failure that aborts before any
   * file is written.  The first statement built from the bean name, that of
   * `getDeserializedType`, is handed to the code writer before the backing
   * file is written; the later two are accepted whenever it is.
   */
  function GenerateReader(e: Element): (r: Result<seq<JavaFile>, ProcessorError>)
    ensures r.Success? <==>
      && GetBeanType(e).Success?
      && BeanName(GetBeanType(e).value).Success?
      && AcceptedWithoutArgs(BeanName(GetBeanType(e).value).value)
    ensures r.Success? ==> |r.value| == 2
  {
    var packageName := PackageOf(e);
    var beanType :- GetBeanType(e);
    var beanName :- BeanName(beanType);
    StatementsAcceptedWithName(beanName);
    if !AcceptedWithoutArgs(DeserializedTypeStatement(beanName)) then Failure(MalformedStatement)
    else
      var backing := MakeBeanDeserializer(beanType, beanName, packageName);
      var entry := MakeEntryClass(e, beanType, beanName);
      Success([backing, entry])
  }

  /**
   * The plan of a successful generation: both files go to the declaration's
   * package, the classes carry the derived names, the entry class
   * instantiates exactly the backing class and is labelled with the bean
   * name, and one bean type parameterises every generic reference.
   */
  lemma GeneratedPlanConsistent(e: Element)
    requires GenerateReader(e).Success?
    ensures
      var beanType := GetBeanType(e).value;
      var beanName := BeanName(beanType).value;
      var backing := GenerateReader(e).value[0].typeSpec;
      var entry := GenerateReader(e).value[1].typeSpec;
      && GenerateReader(e).value[0].packageName == PackageOf(e) && GenerateReader(e).value[1].packageName == PackageOf(e)
      && entry.name == EntryClassName(e)
      && backing.name == BackingClassName(beanName)
      && backing.modifiers == [Public, Final] && entry.modifiers == [Public, Final]
      // the backing class reports the bean class as the deserialized type
      && StatementOf(backing.methods, "getDeserializedType") == Some("return " + beanName + ".class")
      // the entry class instantiates exactly the backing class
      && StatementOf(entry.methods, "newDeserializer").Some?
      && InstantiatedClass(StatementOf(entry.methods, "newDeserializer").value) == Some(backing.name)
      // the entry constructor is labelled with the bean name
      && StatementOf(entry.methods, ConstructorName).Some?
      && SuperLabel(StatementOf(entry.methods, ConstructorName).value) == Some(beanName)
      // one bean type parameterises every generic reference
      && entry.superclass == Over(AbstractObjectReaderName, beanType)
      && backing.superclass == Over(AbstractBeanJsonDeserializerName, beanType)
      && ReturnTypeOf(backing.methods, "initInstanceBuilder") == Some(Over(InstanceBuilderName, beanType))
      && ReturnTypeOf(entry.methods, "newDeserializer") == Some(Over(JsonDeserializerName, beanType))
      && entry.superinterfaces == [ClassRef(QualifiedName(e))]
      // every statement built from the bean name is one the code writer accepts
      && AcceptedWithoutArgs(StatementOf(backing.methods, "getDeserializedType").value)
      && AcceptedWithoutArgs(StatementOf(entry.methods, "newDeserializer").value)
      && AcceptedWithoutArgs(StatementOf(entry.methods, ConstructorName).value)
  {
    var beanType := GetBeanType(e).value;
    var beanName := BeanName(beanType).value;
    NewDeserializerInstantiatesBacking(beanName);
    ConstructorLabelIsBeanName(beanName);
    StatementsAcceptedWithName(beanName);
    var methods := MakeBeanDeserializer(beanType, beanName, PackageOf(e)).typeSpec.methods;
    assert ReturnTypeOf(methods[2..], "initInstanceBuilder") == Some(Over(InstanceBuilderName, beanType));
    assert ReturnTypeOf(methods[1..], "initInstanceBuilder") == Some(Over(InstanceBuilderName, beanType));
  }

  /**
   * Two readers in one package whose bean types share a simple name get
   * backing classes of one qualified name, so the second write of that class
   * names a type the round has already created.
   */
  lemma SharedBeanNameSharesBackingClass(e1: Element, e2: Element)
    requires GenerateReader(e1).Success? && GenerateReader(e2).Success?
    requires PackageOf(e1) == PackageOf(e2)
    requires BeanName(GetBeanType(e1).value) == BeanName(GetBeanType(e2).value)
    ensures GenerateReader(e1).value[0].packageName == GenerateReader(e2).value[0].packageName
    ensures GenerateReader(e1).value[0].typeSpec.name == GenerateReader(e2).value[0].typeSpec.name
  {
  }

  /** `e` is returned by the round's query for elements annotated with `JsonReader`. */
  predicate IsReader(e: Element)
  {
    e.TypeElement? && JsonReaderName in e.annotations
  }

  /** The round's elements annotated with `JsonReader`, in round order. */
  function Readers(elements: seq<Element>): (r: seq<Element>)
    ensures forall i :: 0 <= i < |r| ==> IsReader(r[i]) && r[i] in elements
    ensures forall e :: e in elements && IsReader(e) ==> e in r
  {
    if |elements| == 0 then []
    else if IsReader(elements[0]) then [elements[0]] + Readers(elements[1..])
    else Readers(elements[1..])
  }

  /** What a round leaves behind: the claim flag, the files written, and the failure that ended it early. */
  datatype RoundOutcome = RoundOutcome(claimed: bool, written: seq<JavaFile>, aborted: Option<ProcessorError>)

  /** What generating one declaration yields: its two files, or the error that escaped. */
  type Generated = Result<seq<JavaFile>, ProcessorError>

  /** The outcome of generating each declaration, in order. */
  function Outcomes(readers: seq<Element>): (r: seq<Generated>)
    ensures |r| == |readers|
    ensures forall i :: 0 <= i < |readers| ==> r[i] == GenerateReader(readers[i])
  {
    seq(|readers|, i requires 0 <= i < |readers| => GenerateReader(readers[i]))
  }

  /** Every successful outcome holds exactly two files. */
  predicate Pairs(outs: seq<Generated>)
  {
    forall i :: 0 <= i < |outs| && outs[i].Success? ==> |outs[i].value| == 2
  }

  /**
   * Writes the outcomes' files in turn; the first failure ends the round,
   * keeping the files already written for earlier declarations.
   */
  function Collect(outs: seq<Generated>): (r: (seq<JavaFile>, Option<ProcessorError>))
    ensures Pairs(outs) && r.1.None? ==> |r.0| == 2 * |outs|
  {
    if |outs| == 0 then ([], None)
    else
      match outs[0]
      case Failure(err) => ([], Some(err))
      case Success(files) =>
        var rest := Collect(outs[1..]);
        assert Pairs(outs) ==> Pairs(outs[1..]) by {
          assert forall i :: 1 <= i < |outs| ==> outs[1..][i - 1] == outs[i];
        }
        (files + rest.0, rest.1)
  }

  lemma {:induction false} CollectCompletes(outs: seq<Generated>)
    ensures Collect(outs).1.None? <==> forall i :: 0 <= i < |outs| ==> outs[i].Success?
  {
    if |outs| > 0 && outs[0].Success? {
      CollectCompletes(outs[1..]);
      assert forall i :: 1 <= i < |outs| ==> outs[i] == outs[1..][i - 1];
    }
  }

  lemma {:induction false} CollectInOrder(outs: seq<Generated>, i: nat)
    requires Pairs(outs) && i < |outs|
    requires forall j :: 0 <= j <= i ==> outs[j].Success?
    ensures |Collect(outs).0| >= 2 * i + 2
    ensures Collect(outs).0[2 * i..2 * i + 2] == outs[i].value
  {
    var files := outs[0].value;
    var rest := Collect(outs[1..]).0;
    assert Collect(outs).0 == files + rest;
    if i == 0 {
      assert (files + rest)[0..2] == files;
    } else {
      assert forall j :: 0 <= j < |outs| - 1 ==> outs[1..][j] == outs[j + 1];
      CollectInOrder(outs[1..], i - 1);
      SliceAfterPair(files, rest, i);
    }
  }

  lemma SliceAfterPair(files: seq<JavaFile>, rest: seq<JavaFile>, i: nat)
    requires |files| == 2 && 1 <= i && 2 * i + 2 <= |files| + |rest|
    ensures (files + rest)[2 * i..2 * i + 2] == rest[2 * (i - 1)..2 * (i - 1) + 2]
  {
  }

  lemma {:induction false} CollectStops(outs: seq<Generated>, k: nat)
    requires Pairs(outs) && k < |outs| && outs[k].Failure?
    requires forall j :: 0 <= j < k ==> outs[j].Success?
    ensures Collect(outs).1 == Some(outs[k].error)
    ensures |Collect(outs).0| == 2 * k
  {
    if k > 0 {
      assert forall j :: 0 <= j < |outs| - 1 ==> outs[1..][j] == outs[j + 1];
      CollectStops(outs[1..], k - 1);
    }
  }

  lemma {:induction false} CollectFrom(outs: seq<Generated>, f: JavaFile)
    requires f in Collect(outs).0
    ensures exists i :: 0 <= i < |outs| && outs[i].Success? && f in outs[i].value
  {
    if f !in outs[0].value {
      CollectFrom(outs[1..], f);
      var i :| 0 <= i < |outs[1..]| && outs[1..][i].Success? && f in outs[1..][i].value;
      assert outs[1..][i] == outs[i + 1];
    }
  }

  /** Generates for each declaration in turn, stopping at the first failure. */
  function GenerateAll(readers: seq<Element>): (r: (seq<JavaFile>, Option<ProcessorError>))
    ensures r.1.None? ==> |r.0| == 2 * |readers|
  {
    GeneratedPairs(readers);
    Collect(Outcomes(readers))
  }

  lemma GeneratedPairs(readers: seq<Element>)
    ensures Pairs(Outcomes(readers))
  {
  }

  /** The round completes exactly when every declaration's generation succeeds. */
  lemma GenerateAllCompletes(readers: seq<Element>)
    ensures GenerateAll(readers).1.None? <==> forall i :: 0 <= i < |readers| ==> GenerateReader(readers[i]).Success?
  {
    CollectCompletes(Outcomes(readers));
  }

  /**
   * While every declaration up to the `i`-th succeeds, the `i`-th one's two
   * files are written in positions `2i` and `2i + 1`.
   */
  lemma GenerateAllWritesInOrder(readers: seq<Element>, i: nat)
    requires i < |readers|
    requires forall j :: 0 <= j <= i ==> GenerateReader(readers[j]).Success?
    ensures |GenerateAll(readers).0| >= 2 * i + 2
    ensures GenerateAll(readers).0[2 * i..2 * i + 2] == GenerateReader(readers[i]).value
  {
    GeneratedPairs(readers);
    CollectInOrder(Outcomes(readers), i);
  }

  /**
   * The first failing declaration ends the round with its error, after
   * exactly the files of the declarations before it.
   */
  lemma GenerateAllStopsAtFirstFailure(readers: seq<Element>, k: nat)
    requires k < |readers| && GenerateReader(readers[k]).Failure?
    requires forall j :: 0 <= j < k ==> GenerateReader(readers[j]).Success?
    ensures GenerateAll(readers).1 == Some(GenerateReader(readers[k]).error)
    ensures |GenerateAll(readers).0| == 2 * k
  {
    GeneratedPairs(readers);
    CollectStops(Outcomes(readers), k);
  }

  lemma GenerateAllFilesFromReaders(readers: seq<Element>, f: JavaFile)
    requires f in GenerateAll(readers).0
    ensures exists i :: 0 <= i < |readers| && GenerateReader(readers[i]).Success? && f in GenerateReader(readers[i]).value
  {
    CollectFrom(Outcomes(readers), f);
  }

  /**
   * Models `process`: only the elements annotated with `JsonReader` are
   * generated for, and the round never claims the annotations.
   */
  function Process(elements: seq<Element>): (r: RoundOutcome)
    ensures !r.claimed
    ensures r.aborted.None? ==> |r.written| == 2 * |Readers(elements)|
  {
    var (written, aborted) := GenerateAll(Readers(elements));
    RoundOutcome(false, written, aborted)
  }

  /** Every file a round writes was generated for a `JsonReader` declaration of that round. */
  lemma ProcessWritesOnlyForReaders(elements: seq<Element>, f: JavaFile)
    requires f in Process(elements).written
    ensures exists e :: e in elements && IsReader(e) && GenerateReader(e).Success? && f in GenerateReader(e).value
  {
    var readers := Readers(elements);
    GenerateAllFilesFromReaders(readers, f);
    var i :| 0 <= i < |readers| && GenerateReader(readers[i]).Success? && f in GenerateReader(readers[i]).value;
    assert readers[i] in elements && IsReader(readers[i]);
  }

  /** Elements without `JsonReader` leave the round's outcome unchanged. */
  lemma {:induction false} NonReadersIgnored(elements: seq<Element>, others: seq<Element>)
    requires forall e :: e in others ==> !IsReader(e)
    ensures Process(elements + others) == Process(elements)
    ensures Process(others + elements) == Process(elements)
  {
    ReadersAppend(elements, others);
    ReadersAppend(others, elements);
    NoReaders(others);
    assert Readers(elements + others) == Readers(elements);
    assert Readers(others + elements) == Readers(elements);
  }

  lemma {:induction false} ReadersAppend(a: seq<Element>, b: seq<Element>)
    ensures Readers(a + b) == Readers(a) + Readers(b)
  {
    if |a| > 0 {
      assert (a + b)[1..] == a[1..] + b;
      ReadersAppend(a[1..], b);
    } else {
      assert a + b == b;
    }
  }

  lemma {:induction false} NoReaders(elements: seq<Element>)
    requires forall e :: e in elements ==> !IsReader(e)
    ensures Readers(elements) == []
  {
    if |elements| > 0 {
      NoReaders(elements[1..]);
    }
  }

  /** Models `getSupportedAnnotationTypes`. */
  function SupportedAnnotationTypes(): (r: set<string>)
    ensures JsonReaderName in r && JsonWriterName in r && JsonMapperName in r
    ensures |r| == 3
  {
    {JsonReaderName, JsonWriterName, JsonMapperName}
  }
}
