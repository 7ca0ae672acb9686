/**
 * The metadata store the analyzer reads, as plain values.
 *
 * Each table is a sequence of rows; a handle is the 0-based index of a row
 * and its metadata token is the table number in the high byte and the
 * 1-based row number in the low three bytes (ECMA-335 partition II,
 * section 22). Strings are already read from the string heap.
 */
module Metadata {
  import opened Wrappers

  type Token = t: nat | t < 0x1_0000_0000
  type Int32 = x: int | -0x8000_0000 <= x < 0x8000_0000
  type Byte = b: nat | b < 0x100

  /** Row numbers are 24 bits wide. */
  const MaxRows: nat := 0x100_0000

  const TypeRefTable: nat := 0x01
  const TypeDefTable: nat := 0x02
  const MethodDefTable: nat := 0x06
  const MemberRefTable: nat := 0x0A
  const ExportedTypeTable: nat := 0x27

  /** The token of the row with 0-based index `index` in table `table`. */
  function TokenOf(table: nat, index: nat): (t: Token)
    requires table < 0x100 && index < MaxRows - 1
  {
    table * MaxRows + index + 1
  }

  /** Equal tokens of one table name the same row. */
  lemma TokenOfInjective(table: nat, i: nat, j: nat)
    requires table < 0x100 && i < MaxRows - 1 && j < MaxRows - 1
    requires TokenOf(table, i) == TokenOf(table, j)
    ensures i == j
  {
  }

  /** TypeAttributes flags of a TypeDef row. */
  type TypeAttributes = bv32

  datatype TypeDef = TypeDef(
    namespace: string,
    name: string,
    declaringType: Option<nat>,   // GetDeclaringType(); None for a nil handle
    genericArity: nat,            // GetGenericParameters().Count
    attributes: TypeAttributes,
    methods: seq<nat>)            // GetMethods()

  datatype TypeRef = TypeRef(namespace: string, name: string)

  datatype ExportedType = ExportedType(namespace: string, name: string)

  /** A Param row; sequence number 0 is the return value. */
  datatype Parameter = Parameter(sequenceNumber: nat, name: string)

  /** The member-reference parent coded index (ECMA-335 II.24.2.6). */
  datatype MemberRefParent =
    | ParentTypeReference(typeRef: nat)
    | ParentTypeDefinition(typeDef: nat)
    | ParentMethodDefinition(methodDef: nat)
    | ParentModuleReference(moduleRef: nat)
    | ParentTypeSpecification(typeSpec: nat)

  /** HandleKind.ToString() of a parent handle. */
  function HandleKindName(p: MemberRefParent): string {
    match p
    case ParentTypeReference(_) => "TypeReference"
    case ParentTypeDefinition(_) => "TypeDefinition"
    case ParentMethodDefinition(_) => "MethodDefinition"
    case ParentModuleReference(_) => "ModuleReference"
    case ParentTypeSpecification(_) => "TypeSpecification"
  }

  /**
   * A MemberRef row. `signatureHash` is None for a nil signature blob and
   * otherwise the value of the blob handle's GetHashCode(), which the model
   * does not compute.
   */
  datatype MemberRef = MemberRef(
    parent: MemberRefParent,
    name: string,
    signatureHash: Option<Int32>,
    isMethod: bool)               // GetKind() == MemberReferenceKind.Method

  /** Accessibility of the decompiler's type system; its ToString() is the constructor's C# name. */
  datatype Accessibility =
    NoAccessibility | Private | ProtectedAndInternal | Protected | Internal | ProtectedOrInternal | Public

  function AccessibilityName(a: Accessibility): string {
    match a
    case NoAccessibility => "None"
    case Private => "Private"
    case ProtectedAndInternal => "ProtectedAndInternal"
    case Protected => "Protected"
    case Internal => "Internal"
    case ProtectedOrInternal => "ProtectedOrInternal"
    case Public => "Public"
  }

  /** The resolved IMethod at a call site, as the IL reader gives it. */
  datatype CallSite = CallSite(
    declaringTypeFullName: string,
    name: string,
    typeParameterCount: nat,
    parameterTypeFullNames: seq<string>,
    accessibility: Accessibility,
    isStatic: bool,
    isAbstract: bool,
    isVirtual: bool,
    token: Token)

  /** A call instruction; `callee` is None when its Method is null. */
  datatype CallInstruction = CallInstruction(callee: Option<CallSite>)

  /**
   * What re-reading a body and decoding its IL gives (Program.cs:125-126):
   * the call instructions the IL reader finds, in traversal order, or an
   * exception from either call.
   */
  datatype IlReading =
    | IlRead(calls: seq<CallInstruction>)
    | IlReadThrew

  /**
   * What the PE reader yields for a method with a non-zero RVA: no body at
   * all, or a body whose IL bytes may be null, together with what decoding
   * its IL gives; `il` is only consulted when the bytes are not null.
   */
  datatype MethodBody =
    | MissingBody
    | Body(ilBytes: Option<seq<Byte>>, il: IlReading)

  /**
   * The decompiler's outcome for one method: a failure, or the raw text,
   * the text after newline/tab removal and unescaping, and the string
   * literals its visitor collected.
   */
  datatype Decompilation =
    | DecompilationThrew
    | Decompiled(text: string, normalizedText: string, literals: seq<string>)

  datatype MethodDef = MethodDef(
    name: string,
    genericArity: nat,
    parameters: seq<Parameter>,
    attributesText: string,       // MethodAttributes.ToString(), not computed here
    rva: nat,
    declaringType: nat,
    isCompilerGenerated: bool,
    returnType: string,           // decoded signature
    parameterTypes: seq<string>,  // decoded signature
    body: MethodBody,
    decompilation: Decompilation)

  datatype Store = Store(
    typeDefs: seq<TypeDef>,
    methodDefs: seq<MethodDef>,
    typeRefs: seq<TypeRef>,
    exportedTypes: seq<ExportedType>,
    memberRefs: seq<MemberRef>)

  /**
   * `path` is the declaring-type chain of row h, outermost type first and h
   * last: each entry is the declaring type of the next, and the first has none.
   */
  ghost predicate IsChain(defs: seq<TypeDef>, h: nat, path: seq<nat>) {
    && |path| > 0
    && path[|path| - 1] == h
    && (forall i :: 0 <= i < |path| ==> path[i] < |defs|)
    && defs[path[0]].declaringType.None?
    && (forall i :: 0 < i < |path| ==> defs[path[i]].declaringType == Some(path[i - 1]))
  }

  /** Following declaring types from h ends at a top-level type. */
  ghost predicate HasChain(defs: seq<TypeDef>, h: nat) {
    exists path :: IsChain(defs, h, path)
  }

  lemma ChainLast(defs: seq<TypeDef>, h: nat, path: seq<nat>)
    requires IsChain(defs, h, path)
    ensures |path| > 1 <==> defs[h].declaringType.Some?
    ensures |path| > 1 ==> defs[h].declaringType == Some(path[|path| - 2])
  {
    if |path| > 1 {
      assert defs[path[|path| - 1]].declaringType == Some(path[|path| - 2]);
    }
  }

  lemma {:induction false} ChainUnique(defs: seq<TypeDef>, h: nat, p: seq<nat>, q: seq<nat>)
    requires IsChain(defs, h, p) && IsChain(defs, h, q)
    ensures p == q
    decreases |p|
  {
    if |p| > 1 {
      assert defs[h].declaringType == Some(p[|p| - 2]);
      assert |q| > 1;
      var d := p[|p| - 2];
      assert q[|q| - 2] == d;
      ChainUnique(defs, d, p[..|p| - 1], q[..|q| - 1]);
      assert p == p[..|p| - 1] + [h];
      assert q == q[..|q| - 1] + [h];
    } else {
      ChainLast(defs, h, q);
      assert q == [q[0]];
    }
  }

  /** The declaring-type chain of h, outermost first. */
  ghost function NestingPath(defs: seq<TypeDef>, h: nat): (path: seq<nat>)
    requires HasChain(defs, h)
    ensures IsChain(defs, h, path)
  {
    var path :| IsChain(defs, h, path); path
  }

  /** A nested type's chain is its declaring type's chain followed by itself. */
  lemma NestingPathStep(defs: seq<TypeDef>, h: nat, d: nat)
    requires HasChain(defs, h) && h < |defs| && defs[h].declaringType == Some(d)
    ensures HasChain(defs, d)
    ensures NestingPath(defs, h) == NestingPath(defs, d) + [h]
  {
    var p := NestingPath(defs, h);
    assert |p| > 1;
    assert p[|p| - 2] == d;
    var outer := p[..|p| - 1];
    assert IsChain(defs, d, outer);
    ChainUnique(defs, d, outer, NestingPath(defs, d));
    assert p == outer + [h];
  }

  lemma NestingPathTopLevel(defs: seq<TypeDef>, h: nat)
    requires h < |defs| && defs[h].declaringType.None?
    ensures HasChain(defs, h)
    ensures NestingPath(defs, h) == [h]
  {
    assert IsChain(defs, h, [h]);
    var p := NestingPath(defs, h);
    ChainUnique(defs, h, p, [h]);
  }

  predicate ValidParent(md: Store, p: MemberRefParent) {
    match p
    case ParentTypeReference(r) => r < |md.typeRefs|
    case ParentTypeDefinition(d) => d < |md.typeDefs|
    case _ => true
  }

  /**
   * What a well-formed metadata image guarantees: row numbers fit in 24 bits,
   * every declaring-type chain ends, every type's method list names methods
   * that it declares, each once, and every coded index is in range.
   */
  ghost predicate WellFormed(md: Store) {
    && |md.typeDefs| < MaxRows && |md.methodDefs| < MaxRows && |md.typeRefs| < MaxRows
    && |md.exportedTypes| < MaxRows && |md.memberRefs| < MaxRows
    && (forall h :: 0 <= h < |md.typeDefs| ==> HasChain(md.typeDefs, h))
    && (forall m :: 0 <= m < |md.methodDefs| ==> md.methodDefs[m].declaringType < |md.typeDefs|)
    && (forall h, j :: 0 <= h < |md.typeDefs| && 0 <= j < |md.typeDefs[h].methods| ==>
          md.typeDefs[h].methods[j] < |md.methodDefs| &&
          md.methodDefs[md.typeDefs[h].methods[j]].declaringType == h)
    && (forall h, i, j :: 0 <= h < |md.typeDefs| && 0 <= i < j < |md.typeDefs[h].methods| ==>
          md.typeDefs[h].methods[i] != md.typeDefs[h].methods[j])
    && (forall r :: 0 <= r < |md.memberRefs| ==> ValidParent(md, md.memberRefs[r].parent))
  }
}
