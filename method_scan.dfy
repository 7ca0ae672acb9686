/**
 * The work pass 1 of AnalyzeAssembly does for one type and one method
 * (Program.cs:86-184): the type's kind, the method's parameter list, its
 * IL-bytes text and size, its call index and its decompiled source.
 */
module MethodScan {
  import opened Wrappers
  import opened Formatting
  import opened Metadata
  import opened UniqueNaming
  import opened Records
  import opened CallIndex

  // ---------------------------------------------------------------- type kind

  /** TypeAttributes values (ECMA-335 partition II, section 23.1.15). */
  const InterfaceFlag: TypeAttributes := 0x20
  const ClassFlag: TypeAttributes := 0
  const SealedFlag: TypeAttributes := 0x100
  const SpecialNameFlag: TypeAttributes := 0x400

  /** Enum.HasFlag: every bit of `flag` is set in `a`. */
  predicate HasFlag(a: TypeAttributes, flag: TypeAttributes) {
    a & flag == flag
  }

  /**
   * The Kind property. Class is the zero value, so HasFlag(Class) always
   * holds and the last two alternatives are never chosen.
   */
  function TypeKind(a: TypeAttributes): (kind: string)
    ensures kind == "Interface" <==> a & InterfaceFlag != 0
    ensures kind == "Class" <==> a & InterfaceFlag == 0
  {
    if HasFlag(a, InterfaceFlag) then "Interface"
    else if HasFlag(a, ClassFlag) then "Class"
    else if HasFlag(a, SealedFlag) && HasFlag(a, SpecialNameFlag) then "Enum"
    else "Unknown"
  }

  /** A type with Sealed and SpecialName set is still reported as a class. */
  lemma SealedSpecialNameIsClass()
    ensures TypeKind(SealedFlag | SpecialNameFlag) == "Class"
  {
  }

  // ---------------------------------------------------------------- parameters

  function ParameterName(i: nat): string {
    "param" + Decimal(i + 1)
  }

  /** The parameter list: the decoded types in signature order, named param1..paramN. */
  function ParameterModels(types: seq<string>): (ps: seq<MethodParameterModel>)
    ensures |ps| == |types|
    ensures forall i :: 0 <= i < |types| ==> ps[i].typeName == types[i]
  {
    seq(|types|, i requires 0 <= i < |types| => MethodParameterModel(ParameterName(i), types[i]))
  }

  /** A parameter name reads back as its 1-based position. */
  lemma ParameterNameReadsBack(i: nat)
    ensures |ParameterName(i)| > 5 && ParameterName(i)[..5] == "param"
    ensures AllDecimalDigits(ParameterName(i)[5..]) && ParseDecimal(ParameterName(i)[5..]) == i + 1
  {
    assert ParameterName(i)[5..] == Decimal(i + 1);
  }

  /** No two parameters of a method share a name. */
  lemma ParameterNamesDistinct(types: seq<string>, i: nat, j: nat)
    requires i < j < |types|
    ensures ParameterModels(types)[i].name != ParameterModels(types)[j].name
  {
    ParameterNameReadsBack(i);
    ParameterNameReadsBack(j);
  }

  // ---------------------------------------------------------------- IL bytes

  /** A byte in the "X2" format. */
  function ByteHex(b: Byte): (s: string)
    ensures |s| == 2 && AllHexDigits(s) && ParseHex(s) == b
  {
    assert Pow16(2) == 256;
    ParseHexOfHex(b, 2);
    Hex(b, 2)
  }

  function HexPairs(bytes: seq<Byte>): (ps: seq<string>)
    ensures |ps| == |bytes|
    ensures forall i :: 0 <= i < |bytes| ==> ps[i] == ByteHex(bytes[i])
  {
    seq(|bytes|, i requires 0 <= i < |bytes| => ByteHex(bytes[i]))
  }

  /** BitConverter.ToString: the bytes as hex pairs separated by '-'. */
  function BitConverterText(bytes: seq<Byte>): string {
    Join("-", HexPairs(bytes))
  }

  /** The ILBytes text: BitConverter's output with every '-' replaced by a space. */
  function IlBytesText(bytes: seq<Byte>): string {
    ReplaceChar(BitConverterText(bytes), '-', ' ')
  }

  /** Each byte is two upper-case hex digits, neighbours separated by one space. */
  lemma IlBytesLayout(bytes: seq<Byte>)
    requires |bytes| > 0
    ensures |IlBytesText(bytes)| == 3 * |bytes| - 1
    ensures forall k :: 0 <= k < |IlBytesText(bytes)| ==>
      IlBytesText(bytes)[k] == if k % 3 == 2 then ' ' else ByteHex(bytes[k / 3])[k % 3]
  {
    var pairs := HexPairs(bytes);
    JoinOfPairs('-', pairs);
    assert BitConverterText(bytes) == Join(['-'], pairs);
    forall k | 0 <= k < |IlBytesText(bytes)|
      ensures IlBytesText(bytes)[k] == if k % 3 == 2 then ' ' else ByteHex(bytes[k / 3])[k % 3]
    {
      if k % 3 != 2 {
        assert IsHexDigit(pairs[k / 3][k % 3]);
      }
    }
  }

  /** The text reads back as the bytes: the pair at 3i is byte i. */
  lemma IlBytesReadBack(bytes: seq<Byte>, i: nat)
    requires i < |bytes|
    ensures 3 * i + 2 <= |IlBytesText(bytes)|
    ensures IlBytesText(bytes)[3 * i..3 * i + 2] == ByteHex(bytes[i])
    ensures ParseHex(IlBytesText(bytes)[3 * i..3 * i + 2]) == bytes[i]
    ensures 3 * i + 2 < |IlBytesText(bytes)| ==> IlBytesText(bytes)[3 * i + 2] == ' '
  {
    IlBytesLayout(bytes);
    var text := IlBytesText(bytes);
    assert (3 * i) % 3 == 0 && (3 * i) / 3 == i;
    assert (3 * i + 1) % 3 == 1 && (3 * i + 1) / 3 == i;
    assert (3 * i + 2) % 3 == 2;
    assert text[3 * i] == ByteHex(bytes[i])[0];
    assert text[3 * i + 1] == ByteHex(bytes[i])[1];
  }

  // ---------------------------------------------------------------- method bodies

  const AbstractOrExternal: string := "<abstract or external>"
  const NoBody: string := "<none>"
  const EmptyBody: string := "<empty>"
  const DecompilationFailed: string := "    <decompilation failed>"

  /** MethodSize, ILBytes and CalledMethodHandles of one method. */
  datatype BodyScan = BodyScan(methodSize: nat, ilBytes: string, calls: seq<CallIndexEntry>)

  /** The IL bytes the reader returns; empty when there is no body or no byte array. */
  function IlBytesOf(m: MethodDef): seq<Byte> {
    if m.rva != 0 && m.body.Body? && m.body.ilBytes.Some? then m.body.ilBytes.value else []
  }

  /** Whether decoding the IL of a body with a byte array throws (Program.cs:125-126). */
  predicate IlReadFails(m: MethodDef) {
    m.rva != 0 && m.body.Body? && m.body.ilBytes.Some? && m.body.il.IlReadThrew?
  }

  /**
   * The call instructions that are visited: only those of a body with a byte
   * array whose IL decodes. A body whose IL does not decode contributes none.
   */
  function VisitedCalls(m: MethodDef): seq<CallInstruction> {
    if m.rva != 0 && m.body.Body? && m.body.ilBytes.Some? && m.body.il.IlRead? then m.body.il.calls else []
  }

  function BodyScanOf(m: MethodDef): BodyScan {
    var bytes := IlBytesOf(m);
    var text :=
      if m.rva == 0 then AbstractOrExternal
      else if m.body.MissingBody? then NoBody
      else if |bytes| > 0 then IlBytesText(bytes)
      else EmptyBody;
    BodyScan(|bytes|, text, CallIndexOf(VisitedCalls(m)))
  }

  /**
   * Program.cs:112-153: the size and text start out 0 and empty and are
   * reassigned by case. IL that does not decode leaves the call index empty
   * and the scan goes on; the source lets that exception end the run instead.
   */
  method ScanBody(m: MethodDef) returns (methodSize: nat, ilBytesStr: string, calledMethodHandles: seq<CallIndexEntry>)
    ensures BodyScan(methodSize, ilBytesStr, calledMethodHandles) == BodyScanOf(m)
  {
    methodSize := 0;
    ilBytesStr := "";
    calledMethodHandles := [];
    if m.rva != 0 {
      match m.body {
        case Body(ilBytes, il) =>
          if ilBytes.Some? {
            methodSize := |ilBytes.value|;
            match il {
              case IlRead(calls) =>
                calledMethodHandles := BuildCallIndex(calls);
              case IlReadThrew =>
            }
          }
          ilBytesStr := if ilBytes.Some? && |ilBytes.value| > 0 then IlBytesText(ilBytes.value) else EmptyBody;
        case MissingBody =>
          ilBytesStr := NoBody;
      }
    } else {
      ilBytesStr := AbstractOrExternal;
    }
  }

  /** The sentinels start with a character no IL text can start with. */
  lemma SentinelsAreNotIlText(bytes: seq<Byte>)
    requires |bytes| > 0
    ensures IlBytesText(bytes) != AbstractOrExternal
    ensures IlBytesText(bytes) != NoBody
    ensures IlBytesText(bytes) != EmptyBody
  {
    IlBytesLayout(bytes);
    assert IlBytesText(bytes)[0] == ByteHex(bytes[0])[0];
  }

  /**
   * What the size and text say: the size is the number of IL bytes, the text
   * lists them when there are some and otherwise names why there are none,
   * and calls are only collected from a body with a byte array.
   */
  lemma BodyScanMeaning(m: MethodDef)
    ensures BodyScanOf(m).methodSize == |IlBytesOf(m)|
    ensures |IlBytesOf(m)| > 0 ==> BodyScanOf(m).ilBytes == IlBytesText(IlBytesOf(m))
    ensures m.rva == 0 ==> BodyScanOf(m) == BodyScan(0, AbstractOrExternal, [])
    ensures m.rva != 0 && m.body.MissingBody? ==> BodyScanOf(m) == BodyScan(0, NoBody, [])
    ensures m.rva != 0 && m.body.Body? && m.body.ilBytes.None? ==> BodyScanOf(m) == BodyScan(0, EmptyBody, [])
    ensures m.rva != 0 && m.body.Body? && m.body.ilBytes == Some([]) ==> BodyScanOf(m).ilBytes == EmptyBody
    ensures BodyScanOf(m).calls != [] ==> m.rva != 0 && m.body.Body? && m.body.ilBytes.Some? && m.body.il.IlRead?
  {
  }

  /**
   * The body scan as the source writes it: None stands for the exception of
   * Program.cs:125-126, which no handler inside the method loop catches.
   */
  function BodyScanAsWritten(m: MethodDef): Option<BodyScan> {
    if m.rva == 0 then Some(BodyScan(0, AbstractOrExternal, []))
    else match m.body
      case MissingBody => Some(BodyScan(0, NoBody, []))
      case Body(ilBytes, il) =>
        match ilBytes
        case None => Some(BodyScan(0, EmptyBody, []))
        case Some(bytes) =>
          match il
          case IlReadThrew => None
          case IlRead(calls) =>
            Some(BodyScan(|bytes|, if |bytes| > 0 then IlBytesText(bytes) else EmptyBody, CallIndexOf(calls)))
  }

  /** As written, a method whose IL does not decode yields no scan at all. */
  lemma AsWrittenIlFailureEscapes(m: MethodDef)
    ensures BodyScanAsWritten(m).None? <==> IlReadFails(m)
    ensures !IlReadFails(m) ==> BodyScanAsWritten(m) == Some(BodyScanOf(m))
  {
  }

  /**
   * Isolated, a method whose IL does not decode keeps its size and its IL
   * text and only loses its call records.
   */
  lemma IlFailureIsolated(m: MethodDef)
    requires IlReadFails(m)
    ensures BodyScanOf(m).methodSize == |m.body.ilBytes.value|
    ensures BodyScanOf(m).ilBytes == if |m.body.ilBytes.value| > 0 then IlBytesText(m.body.ilBytes.value) else EmptyBody
    ensures BodyScanOf(m).calls == []
  {
  }

  /** Whether the text is one of the sentinels tells exactly whether there are IL bytes. */
  lemma IlBytesTextSentinel(m: MethodDef)
    ensures BodyScanOf(m).ilBytes in {AbstractOrExternal, NoBody, EmptyBody} <==> |IlBytesOf(m)| == 0
  {
    if |IlBytesOf(m)| > 0 {
      SentinelsAreNotIlText(IlBytesOf(m));
    }
  }

  // ---------------------------------------------------------------- decompiled source

  /** DecompiledSource and StringLiterals after the try/catch at Program.cs:155-170. */
  function DecompiledOf(d: Decompilation): (string, seq<string>) {
    match d
    case DecompilationThrew => (DecompilationFailed, [])
    case Decompiled(text, normalizedText, literals) =>
      if text == "" then ("", []) else (normalizedText, literals)
  }

  // ---------------------------------------------------------------- the method record

  /** The record pass 1 builds for method mh of type th; CalledMethods is still empty. */
  ghost function MethodModelOf(md: Store, th: nat, mh: nat): MethodModel
    requires ValidTypeDef(md, th) && mh < |md.methodDefs| < MaxRows
  {
    var m := md.methodDefs[mh];
    var body := BodyScanOf(m);
    var decompiled := DecompiledOf(m.decompilation);
    MethodModel(
      MethodDefKeyOf(md, th, mh), m.rva, body.methodSize, ParameterModels(m.parameterTypes),
      m.returnType, decompiled.1, body.ilBytes, decompiled.0, [], body.calls)
  }

  method ScanMethod(md: Store, th: nat, mh: nat) returns (r: MethodModel)
    requires ValidTypeDef(md, th) && mh < |md.methodDefs| < MaxRows
    ensures r == MethodModelOf(md, th, mh)
  {
    var m := md.methodDefs[mh];
    var methodName := MethodDefKey(md, th, mh);
    var parameters := ParameterModels(m.parameterTypes);
    var methodSize, ilBytesStr, calledMethodHandles := ScanBody(m);
    var sourceText := "";
    var stringLiterals := [];
    match m.decompilation {
      case DecompilationThrew =>
        sourceText := DecompilationFailed;
      case Decompiled(text, normalizedText, literals) =>
        sourceText := text;
        if sourceText != "" {
          sourceText := normalizedText;
          stringLiterals := literals;
        }
    }
    r := MethodModel(methodName, m.rva, methodSize, parameters, m.returnType, stringLiterals,
                     ilBytesStr, sourceText, [], calledMethodHandles);
  }

  /**
   * The record names the method by its unique key, sizes it by its IL bytes
   * and indexes each distinct callee once, under a fallback name that ends
   * with the callee's token.
   */
  lemma MethodModelFacts(md: Store, th: nat, mh: nat)
    requires ValidTypeDef(md, th) && mh < |md.methodDefs| < MaxRows
    ensures EndsWithToken(MethodModelOf(md, th, mh).name, MethodDefToken(mh))
    ensures MethodModelOf(md, th, mh).methodSize == |IlBytesOf(md.methodDefs[mh])|
    ensures DistinctHandles(MethodModelOf(md, th, mh).calledMethodHandles)
    ensures forall t :: (t in Handles(MethodModelOf(md, th, mh).calledMethodHandles)) == HasCallee(VisitedCalls(md.methodDefs[mh]), t)
    ensures forall k :: 0 <= k < |MethodModelOf(md, th, mh).calledMethodHandles| ==>
      EndsWithToken(MethodModelOf(md, th, mh).calledMethodHandles[k].fallbackName,
                    MethodModelOf(md, th, mh).calledMethodHandles[k].handle)
  {
    var calls := VisitedCalls(md.methodDefs[mh]);
    MethodDefKeyEndsWithToken(md, th, mh);
    CallIndexDistinct(calls);
    CallIndexFallbacksCarryTokens(calls);
    forall t: Token
      ensures t in Handles(CallIndexOf(calls)) <==> HasCallee(calls, t)
    {
      CallIndexKeys(calls, t);
    }
  }
}
