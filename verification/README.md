# gwt-jackson generation core in Dafny

This project models two parts of gwt-jackson's code generator. gwt-jackson generates JSON serializers and deserializers for GWT at compile time.

1. **The lookup rules of `CreatorUtils`**:
   - the depth-first annotation search over a class hierarchy. At each level it checks the type itself, then its implemented interfaces (recursively, in declaration order), then its superclass. It never looks at `java.lang.Object`.
   - the fixed-priority annotation search over the accessors of one bean property, in the order getter, setter, field, candidate getters, candidate setters.
   - the bean type extractor. It unwraps iterables through type argument 0 and maps through type argument 1.
2. **The plan of the `ObjectMapperProcessor` annotation processor.** For every declaration annotated with `JsonReader`, the processor writes two classes:
   - a backing class `<Bean>BeanJsonDeserializerImpl`.
   - a public final entry class `<enclosing>_<Name>Impl`, which implements the declaration.

   The model gives the names, supertypes, methods and statement texts of both classes, the bean type taken from the declaration, the order in which files are written, and the round's outcome.

Modules:

- `Wrappers`: `Option` stands for a nullable reference. `Result` stands for a computation that may throw.
- `TypeModel`: the static type model. Class types carry a qualified name, annotations keyed by kind, an optional superclass, implemented interfaces, type arguments and the oracle's `isIterable`/`isMap` flags. `JType` adds the non-class types. Accessors and the `FieldAccessors` record are also here, together with `FirstAnnotation` ("first match wins").
- `AnnotationLookup`: both searches. Each is a method that follows the Java loops. It is paired with a reference definition: the depth-first order `Walk`, or the priority order `AccessorOrder`. An independent reachability predicate `Reaches` gives soundness and completeness.
- `BeanTypes`: `extractBeanType`.
- `Elements`: packages, type declarations and type mirrors, as `javax.lang.model` presents them.
- `MapperNaming`: `enclosingName`, the two class names and the generated statement texts.
- `CodeFormat`: the rule by which JavaPoet accepts a statement format given no arguments.
- `ReaderGeneration`: `getBeanType`, the class descriptions, `generateReader`, `process` and `getSupportedAnnotationTypes`.

## Modelling choices worth knowing

- `enclosingName` looks at the immediately enclosing element only. For a top-level declaration that element is its package, and a package's simple name is the last segment of its name. So a top-level `com.example.PersonReader` gets the entry class `example_PersonReaderImpl`. The prefix is empty only for an element with no enclosing element, which is a package. A declaration nested two levels deep gets only the innermost enclosing name. As a result, two declarations in one package can get the same entry class name (`EntryClassNamesCanCollide`).
- Both generated files go into the package of the annotated declaration.
- The bean type is the first type argument of the first declared interface, taken as it is. `getBeanType` does no collection or map unwrapping.
- The hierarchy search keeps no visited set. A shared superinterface is searched again each time it is reached. This does not change the result.
- `generateReader` does not catch the exceptions thrown by `getBeanType`, by a bean type with no element, or by JavaPoet when a statement format is malformed. They are modelled as a `ProcessorError` that ends the round. Files already written for earlier declarations stay written. Each of these exceptions is thrown before either file of the failing declaration is written.
- The statements are built by concatenating the bean's simple name into JavaPoet format strings, which are passed with no arguments. JavaPoet reads a `$` in such a string as a directive. `$$`, `$>`, `$<`, `$[`, `$]`, `$W` and `$Z` take no argument. Any other `$` makes `addStatement` throw `IllegalArgumentException`: one before another character, or one at the end. So a bean named `Foo$Bar`, a legal Java name, aborts the round at the `getDeserializedType` statement (`CodeFormat`). The other two statements are accepted exactly when that one is.

## Model

| member | source | states |
|---|---|---|
| `TypeModel.FirstAnnotation` | src/main/java/com/github/nmorel/gwtjackson/rebind/CreatorUtils.java:60-66 | The result is absent exactly when no candidate carries the kind; otherwise it is the annotation of a carrier that has no carrier before it |
| `AnnotationLookup.FindFirstEncounteredAnnotationsOnAllHierarchy` | src/main/java/com/github/nmorel/gwtjackson/rebind/CreatorUtils.java:20-40 | The superclass loop, with its recursive interface searches, returns the first annotation met along the depth-first walk: the type itself, then each interface's walk in declaration order, then the superclass's walk, stopping at `java.lang.Object` |
| `AnnotationLookup.FindOnInterfaces` | src/main/java/com/github/nmorel/gwtjackson/rebind/CreatorUtils.java:29-36 | The interface loop of one level returns the first hit among the interfaces' recursive searches, taken in declaration order |
| `AnnotationLookup.HierarchySearchStart` | src/main/java/com/github/nmorel/gwtjackson/rebind/CreatorUtils.java:22-28 | A null start or `java.lang.Object` gives null; an annotated start type other than `Object` gives its own annotation |
| `AnnotationLookup.WalkLevel` | src/main/java/com/github/nmorel/gwtjackson/rebind/CreatorUtils.java:25-37 | At one level, the type's own annotation decides first, and only then the interface walks followed by the superclass walk |
| `AnnotationLookup.WalkIsReachable` | src/main/java/com/github/nmorel/gwtjackson/rebind/CreatorUtils.java:22-37 | The search visits exactly the types reachable through superclass and interface edges without passing through `java.lang.Object` |
| `AnnotationLookup.ReachedIsNotObject` | src/main/java/com/github/nmorel/gwtjackson/rebind/CreatorUtils.java:23 | No reachable type is `java.lang.Object`, so an annotation on `Object` is never returned |
| `AnnotationLookup.HierarchySearchSound` | src/main/java/com/github/nmorel/gwtjackson/rebind/CreatorUtils.java:20-40 | A found annotation belongs to some reachable type that is not `java.lang.Object` |
| `AnnotationLookup.HierarchySearchComplete` | src/main/java/com/github/nmorel/gwtjackson/rebind/CreatorUtils.java:20-40 | If some reachable type carries the kind, the search returns an annotation; the result is null only when none does |
| `AnnotationLookup.InterfaceBeatsSuperclass` | src/main/java/com/github/nmorel/gwtjackson/rebind/CreatorUtils.java:29-37 | On an unannotated type, the first interface in declaration order whose own search succeeds decides the result, whatever the superclass carries |
| `AnnotationLookup.SubtypeBeatsSuperclass` | src/main/java/com/github/nmorel/gwtjackson/rebind/CreatorUtils.java:25-28 | When a type and its superclass are both annotated, the type's own instance is returned |
| `AnnotationLookup.FindAnnotationOnAnyAccessor` | src/main/java/com/github/nmorel/gwtjackson/rebind/CreatorUtils.java:47-76 | The three ifs and two loops return the first annotation met in priority order: getter, setter, field (absent ones skipped), then the candidate getters, then the candidate setters |
| `AnnotationLookup.AccessorPriority` | src/main/java/com/github/nmorel/gwtjackson/rebind/CreatorUtils.java:47-76 | The priority order spelled out: an annotated getter wins over everything, then the setter, then the field, then the candidate lists; the result is null exactly when none carries the kind |
| `BeanTypes.ExtractBeanType` | src/main/java/com/github/nmorel/gwtjackson/rebind/CreatorUtils.java:90-109 | A non-class type gives null; a class type that is neither iterable nor map is returned unchanged; a non-null result is never iterable or map |
| `BeanTypes.ExtractedOccursIn` | src/main/java/com/github/nmorel/gwtjackson/rebind/CreatorUtils.java:97-104 | The extracted bean type is the given type itself or occurs among its nested type arguments |
| `BeanTypes.ExtractIdempotent` | src/main/java/com/github/nmorel/gwtjackson/rebind/CreatorUtils.java:105-107 | Extracting from an extracted bean type gives it back |
| `BeanTypes.IterableUnwrapsFirstArgument` | src/main/java/com/github/nmorel/gwtjackson/rebind/CreatorUtils.java:97-100 | An iterable (even one that is also a map) is unwrapped through type argument 0 |
| `BeanTypes.MapKeyIgnored` | src/main/java/com/github/nmorel/gwtjackson/rebind/CreatorUtils.java:101-104 | Replacing a map's key type never changes the extracted bean type |
| `BeanTypes.IterableOfMapUnwrapsValue` | src/main/java/com/github/nmorel/gwtjackson/rebind/CreatorUtils.java:97-104 | A list of maps yields the bean type of the map's value type |
| `Elements.LastSegment` | gwt-jackson-processor/src/main/java/com/github/nmorel/gwtjackson/processor/ObjectMapperProcessor.java:174 | A package's simple name is a dot-free suffix of its qualified name, preceded by a dot when it is not the whole name |
| `Elements.LastSegmentSplits` | gwt-jackson-processor/src/main/java/com/github/nmorel/gwtjackson/processor/ObjectMapperProcessor.java:174 | A dotted package name is some prefix, a dot and its simple name |
| `Elements.PackageOf` | gwt-jackson-processor/src/main/java/com/github/nmorel/gwtjackson/processor/ObjectMapperProcessor.java:88 | No contract of its own: the qualified name of the package that encloses the element; its use is stated by `GeneratedPlanConsistent` |
| `MapperNaming.EnclosingName` | gwt-jackson-processor/src/main/java/com/github/nmorel/gwtjackson/processor/ObjectMapperProcessor.java:170-175 | The result is empty when there is no enclosing element; otherwise it splits into the enclosing element's simple name followed by the postfix |
| `MapperNaming.EntryClassNameParts` | gwt-jackson-processor/src/main/java/com/github/nmorel/gwtjackson/processor/ObjectMapperProcessor.java:87 | The entry class name splits back into the enclosing prefix, the declaration's simple name and `Impl` |
| `MapperNaming.EntryClassName` | gwt-jackson-processor/src/main/java/com/github/nmorel/gwtjackson/processor/ObjectMapperProcessor.java:87 | No contract of its own; its shape is stated by `EntryClassNameParts`, `TopLevelEntryClassName` and `NestedEntryClassName` |
| `MapperNaming.TopLevelEntryClassName` | gwt-jackson-processor/src/main/java/com/github/nmorel/gwtjackson/processor/ObjectMapperProcessor.java:87 | A top-level declaration's entry class name is prefixed with its package's last name segment and `_` |
| `MapperNaming.NestedEntryClassName` | gwt-jackson-processor/src/main/java/com/github/nmorel/gwtjackson/processor/ObjectMapperProcessor.java:87 | A nested declaration `Outer.Name` gets `Outer_NameImpl` |
| `MapperNaming.EntryClassNameOneLevel` | gwt-jackson-processor/src/main/java/com/github/nmorel/gwtjackson/processor/ObjectMapperProcessor.java:170-175 | Only the immediately enclosing element's simple name enters the entry class name |
| `MapperNaming.EntryClassNameInjective` | gwt-jackson-processor/src/main/java/com/github/nmorel/gwtjackson/processor/ObjectMapperProcessor.java:87 | Under one enclosing prefix, the entry class name determines the declaration's simple name |
| `MapperNaming.EntryClassNamesCanCollide` | gwt-jackson-processor/src/main/java/com/github/nmorel/gwtjackson/processor/ObjectMapperProcessor.java:87 | Two distinct declarations of one package can receive the same entry class name |
| `MapperNaming.BackingClassName` | gwt-jackson-processor/src/main/java/com/github/nmorel/gwtjackson/processor/ObjectMapperProcessor.java:131 | The backing class name is the bean name followed by `BeanJsonDeserializerImpl` |
| `MapperNaming.BackingClassNameInjective` | gwt-jackson-processor/src/main/java/com/github/nmorel/gwtjackson/processor/ObjectMapperProcessor.java:131 | Different bean names give different backing class names |
| `MapperNaming.NewDeserializerInstantiatesBacking` | gwt-jackson-processor/src/main/java/com/github/nmorel/gwtjackson/processor/ObjectMapperProcessor.java:149 | The `newDeserializer` statement instantiates exactly the backing class name |
| `MapperNaming.ConstructorLabelIsBeanName` | gwt-jackson-processor/src/main/java/com/github/nmorel/gwtjackson/processor/ObjectMapperProcessor.java:156 | The entry constructor's `super("…")` literal is exactly the bean name |
| `MapperNaming.StatementsAcceptedWithName` | gwt-jackson-processor/src/main/java/com/github/nmorel/gwtjackson/processor/ObjectMapperProcessor.java:118 | Each of the three statements concatenated around the bean name is accepted by JavaPoet exactly when the bean name alone is |
| `MapperNaming.DeserializedTypeStatement` | gwt-jackson-processor/src/main/java/com/github/nmorel/gwtjackson/processor/ObjectMapperProcessor.java:118 | No contract of its own; its text is stated by `GeneratedPlanConsistent` and its acceptance by `StatementsAcceptedWithName` |
| `MapperNaming.NewDeserializerStatement` | gwt-jackson-processor/src/main/java/com/github/nmorel/gwtjackson/processor/ObjectMapperProcessor.java:149 | No contract of its own; what it instantiates is stated by `NewDeserializerInstantiatesBacking` |
| `MapperNaming.ConstructorStatement` | gwt-jackson-processor/src/main/java/com/github/nmorel/gwtjackson/processor/ObjectMapperProcessor.java:156 | No contract of its own; its label is stated by `ConstructorLabelIsBeanName` |
| `CodeFormat.AcceptedWithoutArgs` | gwt-jackson-processor/src/main/java/com/github/nmorel/gwtjackson/processor/ObjectMapperProcessor.java:118 | No contract of its own: JavaPoet's rule for a format given no arguments, every `$` opening one of the directives `$$ $> $< $[ $] $W $Z`; its consequences are stated by the `CodeFormat` lemmas and `StatementsAcceptedWithName` |
| `CodeFormat.DollarFreeAccepted` | gwt-jackson-processor/src/main/java/com/github/nmorel/gwtjackson/processor/ObjectMapperProcessor.java:118 | A statement format without `$` never makes `addStatement` throw |
| `CodeFormat.AcceptedAfterPlainPrefix` | gwt-jackson-processor/src/main/java/com/github/nmorel/gwtjackson/processor/ObjectMapperProcessor.java:118 | Literal text without `$` before the bean name does not change whether the format is accepted |
| `CodeFormat.AcceptedBeforePlainSuffix` | gwt-jackson-processor/src/main/java/com/github/nmorel/gwtjackson/processor/ObjectMapperProcessor.java:118 | Literal text without `$` after the bean name, whose first character cannot complete a directive, does not change whether the format is accepted |
| `CodeFormat.DollarBeforeLetterRefused` | gwt-jackson-processor/src/main/java/com/github/nmorel/gwtjackson/processor/ObjectMapperProcessor.java:118 | The legal Java name `Foo$Bar` is a malformed format, while `Foo$$Bar` is accepted |
| `ReaderGeneration.GetBeanType` | gwt-jackson-processor/src/main/java/com/github/nmorel/gwtjackson/processor/ObjectMapperProcessor.java:165-168 | It succeeds exactly for a type declaration whose first interface has a type argument, and then returns that argument with no unwrapping |
| `ReaderGeneration.BeanName` | gwt-jackson-processor/src/main/java/com/github/nmorel/gwtjackson/processor/ObjectMapperProcessor.java:89 | No contract of its own: the simple name of the bean type's element, or `NoElementForBeanType`; what it yields is stated by `GenerateReader` and `GeneratedPlanConsistent` |
| `ReaderGeneration.MakeBeanDeserializer` | gwt-jackson-processor/src/main/java/com/github/nmorel/gwtjackson/processor/ObjectMapperProcessor.java:110-141 | No contract of its own; the backing class it describes is stated by `GeneratedPlanConsistent` |
| `ReaderGeneration.MakeNewDeserializerMethod` | gwt-jackson-processor/src/main/java/com/github/nmorel/gwtjackson/processor/ObjectMapperProcessor.java:143-151 | No contract of its own; its return type and statement are stated by `GeneratedPlanConsistent` and `NewDeserializerInstantiatesBacking` |
| `ReaderGeneration.MakeConstructor` | gwt-jackson-processor/src/main/java/com/github/nmorel/gwtjackson/processor/ObjectMapperProcessor.java:153-157 | No contract of its own; its statement is stated by `GeneratedPlanConsistent` and `ConstructorLabelIsBeanName` |
| `ReaderGeneration.AbstractObjectReader` | gwt-jackson-processor/src/main/java/com/github/nmorel/gwtjackson/processor/ObjectMapperProcessor.java:159-163 | No contract of its own; the entry superclass is stated by `GeneratedPlanConsistent` |
| `ReaderGeneration.MakeEntryClass` | gwt-jackson-processor/src/main/java/com/github/nmorel/gwtjackson/processor/ObjectMapperProcessor.java:96-102 | No contract of its own; the entry class it describes is stated by `GeneratedPlanConsistent` |
| `ReaderGeneration.GenerateReader` | gwt-jackson-processor/src/main/java/com/github/nmorel/gwtjackson/processor/ObjectMapperProcessor.java:85-108 | It writes two files exactly when the bean type and its name can be obtained and JavaPoet accepts the bean name inside a statement format; otherwise it fails before writing anything |
| `ReaderGeneration.GeneratedPlanConsistent` | gwt-jackson-processor/src/main/java/com/github/nmorel/gwtjackson/processor/ObjectMapperProcessor.java:85-163 | Both files are in the declaration's package; both classes are public and final; the entry class has the entry name and the backing class the backing name; `getDeserializedType` returns `<beanName>.class`; `newDeserializer` instantiates the backing class; the constructor passes the bean name; one bean type parameterises both superclasses, `initInstanceBuilder` and `newDeserializer`; every statement built from the bean name is accepted by JavaPoet, so the later `addStatement` calls cannot throw |
| `ReaderGeneration.SharedBeanNameSharesBackingClass` | gwt-jackson-processor/src/main/java/com/github/nmorel/gwtjackson/processor/ObjectMapperProcessor.java:131 | Two readers in one package whose bean types share a simple name get backing classes of the same qualified name |
| `ReaderGeneration.Readers` | gwt-jackson-processor/src/main/java/com/github/nmorel/gwtjackson/processor/ObjectMapperProcessor.java:80 | The elements selected are exactly the round's `JsonReader`-annotated type declarations |
| `ReaderGeneration.GenerateAll` | gwt-jackson-processor/src/main/java/com/github/nmorel/gwtjackson/processor/ObjectMapperProcessor.java:81 | A round with no escaping exception hands exactly two files per declaration to the writer |
| `ReaderGeneration.GenerateAllCompletes` | gwt-jackson-processor/src/main/java/com/github/nmorel/gwtjackson/processor/ObjectMapperProcessor.java:81 | The round completes exactly when every declaration's generation succeeds |
| `ReaderGeneration.GenerateAllWritesInOrder` | gwt-jackson-processor/src/main/java/com/github/nmorel/gwtjackson/processor/ObjectMapperProcessor.java:81 | While earlier declarations succeed, the i-th declaration's files are written at positions 2i and 2i+1 |
| `ReaderGeneration.GenerateAllStopsAtFirstFailure` | gwt-jackson-processor/src/main/java/com/github/nmorel/gwtjackson/processor/ObjectMapperProcessor.java:81 | The first failing declaration ends the round with its error, after exactly the files of the declarations before it |
| `ReaderGeneration.GenerateAllFilesFromReaders` | gwt-jackson-processor/src/main/java/com/github/nmorel/gwtjackson/processor/ObjectMapperProcessor.java:80-81 | Every written file is one of the files generated for one of the declarations |
| `ReaderGeneration.Process` | gwt-jackson-processor/src/main/java/com/github/nmorel/gwtjackson/processor/ObjectMapperProcessor.java:79-83 | `process` never claims the annotations; a round with no escaping exception hands two files per `JsonReader` declaration to the writer |
| `ReaderGeneration.ProcessWritesOnlyForReaders` | gwt-jackson-processor/src/main/java/com/github/nmorel/gwtjackson/processor/ObjectMapperProcessor.java:80-81 | Every file a round writes belongs to a `JsonReader`-annotated declaration of that round |
| `ReaderGeneration.NonReadersIgnored` | gwt-jackson-processor/src/main/java/com/github/nmorel/gwtjackson/processor/ObjectMapperProcessor.java:80-82 | Adding elements without `JsonReader` before or after the others leaves the round's outcome unchanged |
| `ReaderGeneration.SupportedAnnotationTypes` | gwt-jackson-processor/src/main/java/com/github/nmorel/gwtjackson/processor/ObjectMapperProcessor.java:177-182 | The supported annotation set has exactly three members: the canonical names of `JsonReader`, `JsonWriter` and `JsonMapper` |

## Left out

- JavaPoet source emission (`TypeSpec`, `MethodSpec` and `JavaFile` building, `writeTo(filer)`): the model keeps only the descriptions handed to JavaPoet. It does not model import handling or the rendering of directives (`$T`, `$$`, `$W`, …) into text. It also omits the checks JavaPoet makes only while emitting a file, such as a `$[` nested in another statement or an unbalanced `$<`. A bean name that smuggles such directives into an accepted format is modelled as accepted.
- The `IOException` catch in `generateReader` and its `Messager` report, because they are file I/O and diagnostics. Writes are not all-or-nothing: the backing file is written before the entry file, so a failure on the second write leaves the first written.
- `ReaderGeneration.Process`: the model assumes every `writeTo(filer)` succeeds. It does not model the `Filer`'s rule that a type may be created only once per run. A second creation throws `FilerException`, which is an `IOException`; `generateReader` catches and reports it, then goes on to the next declaration. Two cases reach this. First, two readers in one package whose bean types share a simple name both produce `<Bean>BeanJsonDeserializerImpl` (`SharedBeanNameSharesBackingClass`). Second, two readers can get the same entry class name (`EntryClassNamesCanCollide`). In both cases the source writes fewer files than the model's two per declaration. The model's `written` lists the files handed to the writer, repeats included.
- `init`, `@AutoService` and the `ProcessingEnvironment` utilities, because they are compiler plumbing.
- How `isIterable`/`isMap` are computed (the type oracle) and how `FieldAccessors` is built. Both are given inputs, as flags and as a record.
- Reflection of annotation values: an annotation is an opaque value keyed by its kind.
- `BeanTypes.ExtractBeanType`: a raw (unparameterized) iterable or map is excluded by the precondition `Unwrappable`. The source would fail with a null dereference or an out-of-bounds index there.
- The iteration order of the set returned by `getElementsAnnotatedWith`: the round is a sequence without repeats, in a given order. The model does not enforce the absence of repeats. A sequence listing one element twice would be generated for twice, where the source's set holds it once.
- Annotations inherited through `@Inherited`: an element counts as a reader only when it carries `JsonReader` itself.
- The unused `annotations` argument of `process`.
- The type parameters of the declaration in the entry class's superinterface: it is referred to by its qualified name.
- Module elements (Java 9 and later): a package is taken to have no enclosing element.
- JavaPoet's conversion of the bean type mirror into a class name: plans keep the mirror itself.
