/**
 * Identity keys of metadata entities (UniqueTypeNaming and
 * UniqueMethodNaming). Every key ends in "|0x" and the eight upper-case hex
 * digits of the entity's metadata token, which makes keys of distinct rows
 * of one table distinct.
 */
module UniqueNaming {
  import opened Wrappers
  import opened Formatting
  import opened Metadata

  function TypeDefToken(h: nat): Token requires h < MaxRows - 1 { TokenOf(TypeDefTable, h) }
  function TypeRefToken(h: nat): Token requires h < MaxRows - 1 { TokenOf(TypeRefTable, h) }
  function ExportedTypeToken(h: nat): Token requires h < MaxRows - 1 { TokenOf(ExportedTypeTable, h) }
  function MethodDefToken(h: nat): Token requires h < MaxRows - 1 { TokenOf(MethodDefTable, h) }
  function MemberRefToken(h: nat): Token requires h < MaxRows - 1 { TokenOf(MemberRefTable, h) }

  // ---------------------------------------------------------------- token suffix

  /** The closing segment of every key: "|0x" and the token in "X8" format. */
  function TokenSuffix(t: Token): (s: string)
    ensures |s| == 11
  {
    "|0x" + Hex8(t)
  }

  predicate EndsWithToken(key: string, t: Token) {
    |key| >= 11 && key[|key| - 11..] == TokenSuffix(t)
  }

  /** Reads the token back from the last eight characters of a key. */
  function KeyToken(key: string): (t: Option<Token>)
  {
    if |key| >= 11 && key[|key| - 11..|key| - 8] == "|0x" && AllHexDigits(key[|key| - 8..])
       && ParseHex(key[|key| - 8..]) < TwoTo32
    then Some(ParseHex(key[|key| - 8..]))
    else None
  }

  lemma KeyTokenOfSuffix(prefix: string, t: Token)
    ensures EndsWithToken(prefix + TokenSuffix(t), t)
    ensures KeyToken(prefix + TokenSuffix(t)) == Some(t)
  {
    var key := prefix + TokenSuffix(t);
    assert key[|key| - 11..] == TokenSuffix(t);
    assert key[|key| - 8..] == Hex8(t);
    assert key[|key| - 11..|key| - 8] == "|0x";
  }

  /** Two keys that end in different tokens are different keys. */
  lemma DistinctTokensDistinctKeys(k1: string, t1: Token, k2: string, t2: Token)
    requires EndsWithToken(k1, t1) && EndsWithToken(k2, t2) && t1 != t2
    ensures k1 != k2
  {
    assert ParseHex(Hex8(t1)) != ParseHex(Hex8(t2));
    assert TokenSuffix(t1) != TokenSuffix(t2) by {
      assert TokenSuffix(t1)[3..] == Hex8(t1);
      assert TokenSuffix(t2)[3..] == Hex8(t2);
    }
  }

  // ---------------------------------------------------------------- type definitions

  function NamespacePrefix(ns: string): string {
    if ns == "" then "" else ns + "."
  }

  /** The names of the rows on a declaring-type path, in path order. */
  function TypeNames(defs: seq<TypeDef>, path: seq<nat>): (names: seq<string>)
    requires forall i :: 0 <= i < |path| ==> path[i] < |defs|
    ensures |names| == |path|
  {
    if path == [] then [] else [defs[path[0]].name] + TypeNames(defs, path[1..])
  }

  ghost predicate ValidTypeDef(md: Store, h: nat) {
    h < |md.typeDefs| < MaxRows && HasChain(md.typeDefs, h)
  }

  /** The "+"-joined names of the declaring-type chain, outermost first. */
  ghost function NestedTypeName(defs: seq<TypeDef>, h: nat): string
    requires h < |defs| && HasChain(defs, h)
  {
    Join("+", TypeNames(defs, NestingPath(defs, h)))
  }

  /** Key of a type definition: "[ns.]Outer+...+Name`arity|0xTOKEN". */
  ghost function TypeDefKeyOf(md: Store, h: nat): string
    requires ValidTypeDef(md, h)
  {
    var typeDef := md.typeDefs[h];
    NamespacePrefix(typeDef.namespace) + NestedTypeName(md.typeDefs, h)
      + "`" + Decimal(typeDef.genericArity) + TokenSuffix(TypeDefToken(h))
  }

  /** The loop over declaring types: the nested name, outermost type first. */
  method NestedName(md: Store, h: nat) returns (fullTypeName: string)
    requires ValidTypeDef(md, h)
    ensures fullTypeName == NestedTypeName(md.typeDefs, h)
  {
    fullTypeName := md.typeDefs[h].name;
    var declaringType := md.typeDefs[h].declaringType;
    ghost var path := NestingPath(md.typeDefs, h);
    ghost var k := |path| - 1;
    assert path[k..] == [h];
    ChainLast(md.typeDefs, h, path);
    while declaringType.Some?
      invariant 0 <= k < |path|
      invariant declaringType == md.typeDefs[path[k]].declaringType
      invariant declaringType.Some? <==> k > 0
      invariant fullTypeName == Join("+", TypeNames(md.typeDefs, path[k..]))
      decreases k
    {
      ChainLast(md.typeDefs, path[k], path[..k + 1]);
      assert path[..k + 1][k] == path[k];
      var declaringTypeDef := md.typeDefs[declaringType.value];
      assert path[k - 1..][1..] == path[k..];
      fullTypeName := declaringTypeDef.name + "+" + fullTypeName;
      declaringType := declaringTypeDef.declaringType;
      k := k - 1;
      ChainLast(md.typeDefs, path[k], path[..k + 1]);
    }
    assert path[k..] == path;
  }

  method TypeDefKey(md: Store, h: nat) returns (key: string)
    requires ValidTypeDef(md, h)
    ensures key == TypeDefKeyOf(md, h)
  {
    var typeDef := md.typeDefs[h];
    var ns := typeDef.namespace;
    var fullTypeName := NestedName(md, h);
    if ns != "" {
      fullTypeName := ns + "." + fullTypeName;
    }
    key := fullTypeName + "`" + Decimal(typeDef.genericArity) + TokenSuffix(TypeDefToken(h));
  }

  lemma TypeDefKeyEndsWithToken(md: Store, h: nat)
    requires ValidTypeDef(md, h)
    ensures EndsWithToken(TypeDefKeyOf(md, h), TypeDefToken(h))
  {
    var typeDef := md.typeDefs[h];
    KeyTokenOfSuffix(NamespacePrefix(typeDef.namespace) + NestedTypeName(md.typeDefs, h)
      + "`" + Decimal(typeDef.genericArity), TypeDefToken(h));
  }

  /** Distinct type definitions never share a key. */
  lemma TypeDefKeysDistinct(md: Store, h1: nat, h2: nat)
    requires ValidTypeDef(md, h1) && ValidTypeDef(md, h2) && h1 != h2
    ensures TypeDefKeyOf(md, h1) != TypeDefKeyOf(md, h2)
  {
    TypeDefKeyEndsWithToken(md, h1);
    TypeDefKeyEndsWithToken(md, h2);
    DistinctTokensDistinctKeys(TypeDefKeyOf(md, h1), TypeDefToken(h1), TypeDefKeyOf(md, h2), TypeDefToken(h2));
  }

  /** A top-level type's key is its own name, prefixed by its namespace if it has one. */
  lemma TypeDefKeyTopLevel(md: Store, h: nat)
    requires h < |md.typeDefs| < MaxRows && md.typeDefs[h].declaringType.None?
    ensures ValidTypeDef(md, h)
    ensures TypeDefKeyOf(md, h) == NamespacePrefix(md.typeDefs[h].namespace) + md.typeDefs[h].name
              + "`" + Decimal(md.typeDefs[h].genericArity) + TokenSuffix(TypeDefToken(h))
  {
    NestingPathTopLevel(md.typeDefs, h);
    assert TypeNames(md.typeDefs, [h]) == [md.typeDefs[h].name];
  }

  /**
   * A nested type's key is built from its declaring type's chain followed by
   * "+" and its own name; only its own namespace is prefixed.
   */
  lemma TypeDefKeyNested(md: Store, h: nat, d: nat)
    requires ValidTypeDef(md, h) && md.typeDefs[h].declaringType == Some(d)
    ensures ValidTypeDef(md, d)
    ensures NestedTypeName(md.typeDefs, h) == NestedTypeName(md.typeDefs, d) + "+" + md.typeDefs[h].name
    ensures TypeDefKeyOf(md, h) == NamespacePrefix(md.typeDefs[h].namespace)
              + NestedTypeName(md.typeDefs, d) + "+" + md.typeDefs[h].name
              + "`" + Decimal(md.typeDefs[h].genericArity) + TokenSuffix(TypeDefToken(h))
  {
    NestingPathStep(md.typeDefs, h, d);
    var outer := NestingPath(md.typeDefs, d);
    TypeNamesSnoc(md.typeDefs, outer, h);
    JoinSnoc("+", TypeNames(md.typeDefs, outer), md.typeDefs[h].name);
  }

  lemma {:induction false} TypeNamesSnoc(defs: seq<TypeDef>, path: seq<nat>, h: nat)
    requires forall i :: 0 <= i < |path| ==> path[i] < |defs|
    requires h < |defs|
    ensures TypeNames(defs, path + [h]) == TypeNames(defs, path) + [defs[h].name]
  {
    if path != [] {
      assert (path + [h])[1..] == path[1..] + [h];
      TypeNamesSnoc(defs, path[1..], h);
    } else {
      assert [h][1..] == [];
    }
  }

  // ---------------------------------------------------------------- type references and exported types

  function QualifiedName(ns: string, name: string): string {
    if ns == "" then name else ns + "." + name
  }

  /** Key of a type reference: "[ns.]Name|0xTOKEN", without arity or nesting. */
  function TypeRefKey(md: Store, h: nat): (key: string)
    requires h < |md.typeRefs| < MaxRows
    ensures EndsWithToken(key, TypeRefToken(h))
  {
    var typeRef := md.typeRefs[h];
    KeyTokenOfSuffix(QualifiedName(typeRef.namespace, typeRef.name), TypeRefToken(h));
    QualifiedName(typeRef.namespace, typeRef.name) + TokenSuffix(TypeRefToken(h))
  }

  /** Key of an exported type: "[ns.]Name|0xTOKEN", without arity or nesting. */
  function ExportedTypeKey(md: Store, h: nat): (key: string)
    requires h < |md.exportedTypes| < MaxRows
    ensures EndsWithToken(key, ExportedTypeToken(h))
  {
    var exportedType := md.exportedTypes[h];
    KeyTokenOfSuffix(QualifiedName(exportedType.namespace, exportedType.name), ExportedTypeToken(h));
    QualifiedName(exportedType.namespace, exportedType.name) + TokenSuffix(ExportedTypeToken(h))
  }

  lemma TypeRefKeysDistinct(md: Store, h1: nat, h2: nat)
    requires h1 < |md.typeRefs| < MaxRows && h2 < |md.typeRefs| && h1 != h2
    ensures TypeRefKey(md, h1) != TypeRefKey(md, h2)
  {
    DistinctTokensDistinctKeys(TypeRefKey(md, h1), TypeRefToken(h1), TypeRefKey(md, h2), TypeRefToken(h2));
  }

  lemma ExportedTypeKeysDistinct(md: Store, h1: nat, h2: nat)
    requires h1 < |md.exportedTypes| < MaxRows && h2 < |md.exportedTypes| && h1 != h2
    ensures ExportedTypeKey(md, h1) != ExportedTypeKey(md, h2)
  {
    DistinctTokensDistinctKeys(ExportedTypeKey(md, h1), ExportedTypeToken(h1),
      ExportedTypeKey(md, h2), ExportedTypeToken(h2));
  }

  // ---------------------------------------------------------------- method definitions

  /** Removes one leading '.', as for ".ctor" and ".cctor". */
  function StripLeadingDot(s: string): (r: string)
    ensures |s| > 0 && s[0] == '.' ==> "." + r == s
    ensures !(|s| > 0 && s[0] == '.') ==> r == s
  {
    if |s| > 0 && s[0] == '.' then s[1..] else s
  }

  lemma StripLeadingDotExamples()
    ensures StripLeadingDot(".ctor") == "ctor"
    ensures StripLeadingDot("..x") == ".x"
    ensures StripLeadingDot("Foo") == "Foo"
    ensures StripLeadingDot("") == ""
  {
  }

  /** The names of the parameter rows with a positive sequence number, in row order. */
  function ParameterNames(ps: seq<Parameter>): seq<string>
  {
    if ps == [] then []
    else ParameterNames(ps[..|ps| - 1])
         + (if ps[|ps| - 1].sequenceNumber > 0 then [ps[|ps| - 1].name] else [])
  }

  lemma {:induction false} ParameterNamesAppend(a: seq<Parameter>, b: seq<Parameter>)
    ensures ParameterNames(a + b) == ParameterNames(a) + ParameterNames(b)
    decreases |b|
  {
    if b == [] {
      assert a + b == a;
    } else {
      var last := b[|b| - 1];
      assert (a + b)[..|a + b| - 1] == a + b[..|b| - 1];
      ParameterNamesAppend(a, b[..|b| - 1]);
    }
  }

  /** The return-value row (sequence number 0) contributes nothing, wherever it stands. */
  lemma ParameterNamesSkipReturnValue(a: seq<Parameter>, name: string, b: seq<Parameter>)
    ensures ParameterNames(a + [Parameter(0, name)] + b) == ParameterNames(a + b)
  {
    ParameterNamesAppend(a + [Parameter(0, name)], b);
    ParameterNamesAppend(a, [Parameter(0, name)]);
    ParameterNamesAppend(a, b);
    assert ParameterNames([Parameter(0, name)]) == [] by {
      assert [Parameter(0, name)][..0] == [];
    }
  }

  /** Rows that are all real parameters give their names, in order. */
  lemma {:induction false} ParameterNamesOfParameters(ps: seq<Parameter>)
    requires forall i :: 0 <= i < |ps| ==> ps[i].sequenceNumber > 0
    ensures |ParameterNames(ps)| == |ps|
    ensures forall i :: 0 <= i < |ps| ==> ParameterNames(ps)[i] == ps[i].name
  {
    if ps != [] {
      ParameterNamesOfParameters(ps[..|ps| - 1]);
    }
  }

  /**
   * Key of a method definition:
   * "TypeKey.name`arity(p1,...,pn)|Attributes|0xTOKEN", the name without a
   * leading '.', the parameter list from the Param rows' names.
   */
  ghost function MethodDefKeyOf(md: Store, th: nat, mh: nat): string
    requires ValidTypeDef(md, th) && mh < |md.methodDefs| < MaxRows
  {
    var methodDef := md.methodDefs[mh];
    TypeDefKeyOf(md, th) + "." + StripLeadingDot(methodDef.name) + "`" + Decimal(methodDef.genericArity)
      + "(" + Join(",", ParameterNames(methodDef.parameters)) + ")|" + methodDef.attributesText
      + TokenSuffix(MethodDefToken(mh))
  }

  method MethodDefKey(md: Store, th: nat, mh: nat) returns (key: string)
    requires ValidTypeDef(md, th) && mh < |md.methodDefs| < MaxRows
    ensures key == MethodDefKeyOf(md, th, mh)
  {
    var methodDef := md.methodDefs[mh];
    var fullTypeName := TypeDefKey(md, th);
    var methodName := StripLeadingDot(methodDef.name);
    var paramTypes: seq<string> := [];
    var i := 0;
    while i < |methodDef.parameters|
      invariant 0 <= i <= |methodDef.parameters|
      invariant paramTypes == ParameterNames(methodDef.parameters[..i])
    {
      assert methodDef.parameters[..i + 1][..i] == methodDef.parameters[..i];
      var param := methodDef.parameters[i];
      if param.sequenceNumber > 0 {
        paramTypes := paramTypes + [param.name];
      }
      i := i + 1;
    }
    assert methodDef.parameters[..i] == methodDef.parameters;
    var paramTypesKey := Join(",", paramTypes);
    var attrKey := methodDef.attributesText;
    key := fullTypeName + "." + methodName + "`" + Decimal(methodDef.genericArity)
      + "(" + paramTypesKey + ")|" + attrKey + TokenSuffix(MethodDefToken(mh));
  }

  lemma MethodDefKeyEndsWithToken(md: Store, th: nat, mh: nat)
    requires ValidTypeDef(md, th) && mh < |md.methodDefs| < MaxRows
    ensures EndsWithToken(MethodDefKeyOf(md, th, mh), MethodDefToken(mh))
  {
    var methodDef := md.methodDefs[mh];
    KeyTokenOfSuffix(TypeDefKeyOf(md, th) + "." + StripLeadingDot(methodDef.name) + "`"
      + Decimal(methodDef.genericArity) + "(" + Join(",", ParameterNames(methodDef.parameters)) + ")|"
      + methodDef.attributesText, MethodDefToken(mh));
  }

  /** Distinct method definitions never share a key, whatever types they are named under. */
  lemma MethodDefKeysDistinct(md: Store, th1: nat, mh1: nat, th2: nat, mh2: nat)
    requires ValidTypeDef(md, th1) && ValidTypeDef(md, th2)
    requires mh1 < |md.methodDefs| < MaxRows && mh2 < |md.methodDefs| && mh1 != mh2
    ensures MethodDefKeyOf(md, th1, mh1) != MethodDefKeyOf(md, th2, mh2)
  {
    MethodDefKeyEndsWithToken(md, th1, mh1);
    MethodDefKeyEndsWithToken(md, th2, mh2);
    DistinctTokensDistinctKeys(MethodDefKeyOf(md, th1, mh1), MethodDefToken(mh1),
      MethodDefKeyOf(md, th2, mh2), MethodDefToken(mh2));
  }

  // ---------------------------------------------------------------- member references

  /** The unsigned 32-bit pattern of a signed value, as "X8" prints a negative Int32. */
  function UInt32Of(x: Int32): (u: Token)
    ensures u % TwoTo32 == x % TwoTo32
  {
    if x < 0 then x + TwoTo32 else x
  }

  /** "|sig:0xHASH" for a non-nil signature blob, empty otherwise. */
  function SignatureSegment(signatureHash: Option<Int32>): string {
    match signatureHash
    case None => ""
    case Some(hash) => "|sig:0x" + Hex8(UInt32Of(hash))
  }

  /** The segment is empty exactly for a nil signature; otherwise the hash can be read back from it. */
  lemma SignatureSegmentReadsBack(signatureHash: Option<Int32>)
    ensures signatureHash.None? <==> SignatureSegment(signatureHash) == ""
    ensures signatureHash.Some? ==>
      var seg := SignatureSegment(signatureHash);
      |seg| == 15 && seg[..7] == "|sig:0x" && AllHexDigits(seg[7..])
      && var u := ParseHex(seg[7..]); (if u >= 0x8000_0000 then u - TwoTo32 else u) == signatureHash.value
  {
    if signatureHash.Some? {
      var seg := SignatureSegment(signatureHash);
      assert seg[7..] == Hex8(UInt32Of(signatureHash.value));
    }
  }

  ghost predicate ValidMemberRef(md: Store, h: nat) {
    && WellFormed(md)
    && h < |md.memberRefs|
  }

  /** The declaring part: the parent's own key, or the parent handle's kind name. */
  ghost function DeclaringTypeName(md: Store, parent: MemberRefParent): string
    requires WellFormed(md) && ValidParent(md, parent)
  {
    match parent
    case ParentTypeReference(r) => TypeRefKey(md, r)
    case ParentTypeDefinition(d) => TypeDefKeyOf(md, d)
    case _ => HandleKindName(parent)
  }

  /** Key of a member reference: "Declaring.name[|sig:0xHASH]|0xTOKEN". */
  ghost function MemberRefKeyOf(md: Store, h: nat): string
    requires ValidMemberRef(md, h)
  {
    var memberRef := md.memberRefs[h];
    DeclaringTypeName(md, memberRef.parent) + "." + StripLeadingDot(memberRef.name)
      + SignatureSegment(memberRef.signatureHash) + TokenSuffix(MemberRefToken(h))
  }

  method MemberRefKey(md: Store, h: nat) returns (key: string)
    requires ValidMemberRef(md, h)
    ensures key == MemberRefKeyOf(md, h)
  {
    var memberRef := md.memberRefs[h];
    var declaringTypeName: string;
    match memberRef.parent {
      case ParentTypeReference(r) =>
        declaringTypeName := TypeRefKey(md, r);
      case ParentTypeDefinition(d) =>
        declaringTypeName := TypeDefKey(md, d);
      case _ =>
        declaringTypeName := HandleKindName(memberRef.parent);
    }
    var methodName := StripLeadingDot(memberRef.name);
    var signatureKey := "";
    if memberRef.signatureHash.Some? {
      signatureKey := "|sig:0x" + Hex8(UInt32Of(memberRef.signatureHash.value));
    }
    key := declaringTypeName + "." + methodName + signatureKey + TokenSuffix(MemberRefToken(h));
  }

  lemma MemberRefKeyEndsWithToken(md: Store, h: nat)
    requires ValidMemberRef(md, h)
    ensures EndsWithToken(MemberRefKeyOf(md, h), MemberRefToken(h))
  {
    var memberRef := md.memberRefs[h];
    KeyTokenOfSuffix(DeclaringTypeName(md, memberRef.parent) + "." + StripLeadingDot(memberRef.name)
      + SignatureSegment(memberRef.signatureHash), MemberRefToken(h));
  }

  lemma MemberRefKeysDistinct(md: Store, h1: nat, h2: nat)
    requires ValidMemberRef(md, h1) && ValidMemberRef(md, h2) && h1 != h2
    ensures MemberRefKeyOf(md, h1) != MemberRefKeyOf(md, h2)
  {
    MemberRefKeyEndsWithToken(md, h1);
    MemberRefKeyEndsWithToken(md, h2);
    DistinctTokensDistinctKeys(MemberRefKeyOf(md, h1), MemberRefToken(h1), MemberRefKeyOf(md, h2), MemberRefToken(h2));
  }

  /** A member of a type reference is keyed under that type reference's own key, and so on per parent kind. */
  lemma MemberRefKeyDeclaringPart(md: Store, h: nat)
    requires ValidMemberRef(md, h)
    ensures var key := MemberRefKeyOf(md, h);
      match md.memberRefs[h].parent
      case ParentTypeReference(r) => key[..|TypeRefKey(md, r)| + 1] == TypeRefKey(md, r) + "."
      case ParentTypeDefinition(d) => key[..|TypeDefKeyOf(md, d)| + 1] == TypeDefKeyOf(md, d) + "."
      case _ => key[..|HandleKindName(md.memberRefs[h].parent)| + 1] == HandleKindName(md.memberRefs[h].parent) + "."
  {
  }

  // ---------------------------------------------------------------- call sites (IMethod)

  /** Accessibility, then "|static", "|abstract", "|virtual" for the flags that are set, in that order. */
  function AttributeKey(a: Accessibility, isStatic: bool, isAbstract: bool, isVirtual: bool): string {
    AccessibilityName(a)
      + (if isStatic then "|static" else "")
      + (if isAbstract then "|abstract" else "")
      + (if isVirtual then "|virtual" else "")
  }

  /**
   * Key computed from the call site's type-system view:
   * "DeclaringFullName.Name`arity(T1,...,Tn)|Attributes|0xTOKEN"; the name is not stripped.
   */
  function CallSiteKeyOf(c: CallSite): string {
    c.declaringTypeFullName + "." + c.name + "`" + Decimal(c.typeParameterCount)
      + "(" + Join(",", c.parameterTypeFullNames) + ")|"
      + AttributeKey(c.accessibility, c.isStatic, c.isAbstract, c.isVirtual) + TokenSuffix(c.token)
  }

  method CallSiteKey(c: CallSite) returns (key: string)
    ensures key == CallSiteKeyOf(c)
  {
    var fullTypeName := c.declaringTypeFullName;
    var methodName := c.name;
    var genericArity := c.typeParameterCount;
    var paramTypesKey := Join(",", c.parameterTypeFullNames);
    var attrKey := AccessibilityName(c.accessibility);
    if c.isStatic { attrKey := attrKey + "|static"; }
    if c.isAbstract { attrKey := attrKey + "|abstract"; }
    if c.isVirtual { attrKey := attrKey + "|virtual"; }
    key := fullTypeName + "." + methodName + "`" + Decimal(genericArity)
      + "(" + paramTypesKey + ")|" + attrKey + TokenSuffix(c.token);
  }

  lemma CallSiteKeyEndsWithToken(c: CallSite)
    ensures EndsWithToken(CallSiteKeyOf(c), c.token)
    ensures KeyToken(CallSiteKeyOf(c)) == Some(c.token)
  {
    KeyTokenOfSuffix(c.declaringTypeFullName + "." + c.name + "`" + Decimal(c.typeParameterCount)
      + "(" + Join(",", c.parameterTypeFullNames) + ")|"
      + AttributeKey(c.accessibility, c.isStatic, c.isAbstract, c.isVirtual), c.token);
  }

  predicate EndsWith(s: string, suffix: string) {
    |suffix| <= |s| && s[|s| - |suffix|..] == suffix
  }

  function AccessibilityFromName(s: string): Option<Accessibility> {
    if s == "None" then Some(NoAccessibility)
    else if s == "Private" then Some(Private)
    else if s == "ProtectedAndInternal" then Some(ProtectedAndInternal)
    else if s == "Protected" then Some(Protected)
    else if s == "Internal" then Some(Internal)
    else if s == "ProtectedOrInternal" then Some(ProtectedOrInternal)
    else if s == "Public" then Some(Public)
    else None
  }

  /** Removes `flag` from the end of `s` if it is there, and says whether it was. */
  function StripFlag(s: string, flag: string): (string, bool) {
    if EndsWith(s, flag) then (s[..|s| - |flag|], true) else (s, false)
  }

  /** Reads the accessibility and the three flags back from an attribute segment. */
  function DecodeAttributeKey(s: string): Option<(Accessibility, bool, bool, bool)> {
    var (s1, isVirtual) := StripFlag(s, "|virtual");
    var (s2, isAbstract) := StripFlag(s1, "|abstract");
    var (s3, isStatic) := StripFlag(s2, "|static");
    match AccessibilityFromName(s3)
    case Some(a) => Some((a, isStatic, isAbstract, isVirtual))
    case None => None
  }

  lemma StripFlagOf(x: string, flag: string, present: bool)
    requires !EndsWith(x, flag)
    ensures StripFlag(x + (if present then flag else ""), flag) == (x, present)
  {
    if present {
      var s := x + flag;
      assert s[|s| - |flag|..] == flag;
      assert s[..|s| - |flag|] == x;
    } else {
      assert x + "" == x;
    }
  }

  lemma NoBarNotEndsWith(x: string, suffix: string)
    requires |suffix| > 0 && suffix[0] == '|'
    requires forall i :: 0 <= i < |x| ==> x[i] != '|'
    ensures !EndsWith(x, suffix)
  {
    if |suffix| <= |x| {
      assert x[|x| - |suffix|..][0] == x[|x| - |suffix|];
    }
  }

  lemma LastCharNotEndsWith(s: string, suffix: string)
    requires |s| > 0 && |suffix| > 0 && s[|s| - 1] != suffix[|suffix| - 1]
    ensures !EndsWith(s, suffix)
  {
    if |suffix| <= |s| {
      assert s[|s| - |suffix|..][|suffix| - 1] == s[|s| - 1];
    }
  }

  lemma {:induction false} AccessibilityNameRoundTrip(a: Accessibility)
    ensures AccessibilityFromName(AccessibilityName(a)) == Some(a)
    ensures forall i :: 0 <= i < |AccessibilityName(a)| ==> AccessibilityName(a)[i] != '|'
  {
  }

  /** Each flag's segment is present exactly when the flag is set, so the segment decodes back. */
  lemma AttributeKeyDecodes(a: Accessibility, isStatic: bool, isAbstract: bool, isVirtual: bool)
    ensures DecodeAttributeKey(AttributeKey(a, isStatic, isAbstract, isVirtual))
            == Some((a, isStatic, isAbstract, isVirtual))
  {
    var n := AccessibilityName(a);
    AccessibilityNameRoundTrip(a);
    var k2 := n + (if isStatic then "|static" else "");
    var k1 := k2 + (if isAbstract then "|abstract" else "");
    var k := k1 + (if isVirtual then "|virtual" else "");
    assert k == AttributeKey(a, isStatic, isAbstract, isVirtual);
    if isAbstract || isStatic {
      LastCharNotEndsWith(k1, "|virtual");
    } else {
      NoBarNotEndsWith(k1, "|virtual");
    }
    StripFlagOf(k1, "|virtual", isVirtual);
    if isStatic {
      LastCharNotEndsWith(k2, "|abstract");
    } else {
      NoBarNotEndsWith(k2, "|abstract");
    }
    StripFlagOf(k2, "|abstract", isAbstract);
    NoBarNotEndsWith(n, "|static");
    StripFlagOf(n, "|static", isStatic);
  }
}
