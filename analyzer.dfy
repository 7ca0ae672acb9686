/**
 * AnalyzeAssembly (Program.cs:35-314) on a metadata image given as values:
 * pass 1 builds a record per type and method and a token -> method lookup,
 * pass 2 resolves each method's call index against that lookup, and three
 * loops list the imported functions, imported types and exported types.
 */
module Analyzer {
  import opened Wrappers
  import opened Metadata
  import opened UniqueNaming
  import opened Records
  import opened CallIndex
  import opened MethodScan
  import CommandLine

  /** Methods pass 1 skips: compiler-generated ones, when --ignore-compiler-generated is given. */
  predicate Skipped(settings: CommandLine.Settings, m: MethodDef) {
    m.isCompilerGenerated && settings.ignoreCompilerGeneratedMethods
  }

  predicate MethodsInRange(md: Store, ms: seq<nat>) {
    forall j :: 0 <= j < |ms| ==> ms[j] < |md.methodDefs|
  }

  /** Method mh occurs in the method list of the type that declares it. */
  predicate Listed(md: Store, mh: nat) {
    && mh < |md.methodDefs|
    && md.methodDefs[mh].declaringType < |md.typeDefs|
    && mh in md.typeDefs[md.methodDefs[mh].declaringType].methods
  }

  // ---------------------------------------------------------------- the lookup

  predicate IsMethodDefTokenOf(md: Store, t: Token) {
    MethodDefTable * MaxRows < t <= MethodDefTable * MaxRows + |md.methodDefs|
  }

  /** The row a method-definition token names. */
  function MethodDefRow(t: Token): nat
    requires t > MethodDefTable * MaxRows
  {
    t - MethodDefTable * MaxRows - 1
  }

  lemma MethodDefTokenRow(md: Store, mh: nat)
    requires mh < |md.methodDefs| < MaxRows
    ensures IsMethodDefTokenOf(md, MethodDefToken(mh)) && MethodDefRow(MethodDefToken(mh)) == mh
  {
  }

  /** Every entry maps a method-definition token of this image to that method's row. */
  ghost predicate LookupFaithful(md: Store, lookup: map<Token, MethodDef>) {
    forall t :: t in lookup ==> IsMethodDefTokenOf(md, t) && lookup[t] == md.methodDefs[MethodDefRow(t)]
  }

  /** Program.cs:172, reached only for methods that are not skipped. */
  function InsertMethod(md: Store, settings: CommandLine.Settings, lookup: map<Token, MethodDef>, mh: nat)
    : map<Token, MethodDef>
    requires mh < |md.methodDefs| < MaxRows
  {
    if Skipped(settings, md.methodDefs[mh]) then lookup
    else lookup[MethodDefToken(mh) := md.methodDefs[mh]]
  }

  /** The lookup after the first n methods of ms, the method list of one type, in list order. */
  function InsertMethods(
    md: Store, settings: CommandLine.Settings, lookup: map<Token, MethodDef>, ms: seq<nat>, n: nat)
    : map<Token, MethodDef>
    requires |md.methodDefs| < MaxRows && MethodsInRange(md, ms) && n <= |ms|
  {
    if n == 0 then lookup
    else InsertMethod(md, settings, InsertMethods(md, settings, lookup, ms, n - 1), ms[n - 1])
  }

  /** The lookup after the first n types. */
  ghost function LookupUpTo(md: Store, settings: CommandLine.Settings, n: nat): map<Token, MethodDef>
    requires WellFormed(md) && n <= |md.typeDefs|
  {
    if n == 0 then map[]
    else
      var ms := md.typeDefs[n - 1].methods;
      InsertMethods(md, settings, LookupUpTo(md, settings, n - 1), ms, |ms|)
  }

  /** The lookup pass 2 reads: the one after every type. */
  ghost function LookupOf(md: Store, settings: CommandLine.Settings): (lookup: map<Token, MethodDef>)
    requires WellFormed(md)
    ensures LookupFaithful(md, lookup)
  {
    LookupUpToFaithful(md, settings, |md.typeDefs|);
    LookupUpTo(md, settings, |md.typeDefs|)
  }

  lemma {:induction false} InsertMethodsFaithful(
    md: Store, settings: CommandLine.Settings, lookup: map<Token, MethodDef>, ms: seq<nat>, n: nat)
    requires |md.methodDefs| < MaxRows && MethodsInRange(md, ms) && n <= |ms| && LookupFaithful(md, lookup)
    ensures LookupFaithful(md, InsertMethods(md, settings, lookup, ms, n))
  {
    if n > 0 {
      InsertMethodsFaithful(md, settings, lookup, ms, n - 1);
      MethodDefTokenRow(md, ms[n - 1]);
    }
  }

  lemma {:induction false} LookupUpToFaithful(md: Store, settings: CommandLine.Settings, n: nat)
    requires WellFormed(md) && n <= |md.typeDefs|
    ensures LookupFaithful(md, LookupUpTo(md, settings, n))
  {
    if n > 0 {
      var ms := md.typeDefs[n - 1].methods;
      LookupUpToFaithful(md, settings, n - 1);
      InsertMethodsFaithful(md, settings, LookupUpTo(md, settings, n - 1), ms, |ms|);
    }
  }

  lemma {:induction false} InsertMethodsHas(
    md: Store, settings: CommandLine.Settings, lookup: map<Token, MethodDef>, ms: seq<nat>, n: nat, mh: nat)
    requires |md.methodDefs| < MaxRows && MethodsInRange(md, ms) && n <= |ms| && mh < |md.methodDefs|
    ensures MethodDefToken(mh) in InsertMethods(md, settings, lookup, ms, n) <==>
              MethodDefToken(mh) in lookup || (mh in ms[..n] && !Skipped(settings, md.methodDefs[mh]))
  {
    if n > 0 {
      InsertMethodsHas(md, settings, lookup, ms, n - 1, mh);
      assert ms[..n] == ms[..n - 1] + [ms[n - 1]];
      MethodDefTokenRow(md, ms[n - 1]);
      MethodDefTokenRow(md, mh);
    }
  }

  /** After n types, the lookup holds exactly the listed, unskipped methods of those types. */
  lemma {:induction false} LookupUpToHas(md: Store, settings: CommandLine.Settings, n: nat, mh: nat)
    requires WellFormed(md) && n <= |md.typeDefs| && mh < |md.methodDefs|
    ensures MethodDefToken(mh) in LookupUpTo(md, settings, n) <==>
      Listed(md, mh) && md.methodDefs[mh].declaringType < n && !Skipped(settings, md.methodDefs[mh])
  {
    if n > 0 {
      var ms := md.typeDefs[n - 1].methods;
      LookupUpToHas(md, settings, n - 1, mh);
      InsertMethodsHas(md, settings, LookupUpTo(md, settings, n - 1), ms, |ms|, mh);
      assert ms[..|ms|] == ms;
      if mh in ms {
        var j :| 0 <= j < |ms| && ms[j] == mh;
        assert md.methodDefs[md.typeDefs[n - 1].methods[j]].declaringType == n - 1;
      }
    }
  }

  /**
   * The lookup pass 2 reads holds a method exactly when pass 1 did not skip
   * it, under its own token and with its own row.
   */
  lemma LookupOfHas(md: Store, settings: CommandLine.Settings, mh: nat)
    requires WellFormed(md) && mh < |md.methodDefs|
    ensures LookupFaithful(md, LookupOf(md, settings))
    ensures MethodDefToken(mh) in LookupOf(md, settings) <==> Listed(md, mh) && !Skipped(settings, md.methodDefs[mh])
    ensures MethodDefToken(mh) in LookupOf(md, settings) ==> LookupOf(md, settings)[MethodDefToken(mh)] == md.methodDefs[mh]
  {
    LookupUpToFaithful(md, settings, |md.typeDefs|);
    LookupUpToHas(md, settings, |md.typeDefs|, mh);
    MethodDefTokenRow(md, mh);
  }

  // ---------------------------------------------------------------- pass 1

  /** The first n methods of ms that pass 1 does not skip, in list order. */
  function KeptMethods(md: Store, settings: CommandLine.Settings, ms: seq<nat>, n: nat): (kept: seq<nat>)
    requires MethodsInRange(md, ms) && n <= |ms|
    ensures MethodsInRange(md, kept)
  {
    if n == 0 then []
    else KeptMethods(md, settings, ms, n - 1) + (if Skipped(settings, md.methodDefs[ms[n - 1]]) then [] else [ms[n - 1]])
  }

  lemma {:induction false} KeptMethodsExact(md: Store, settings: CommandLine.Settings, ms: seq<nat>, n: nat, mh: nat)
    requires MethodsInRange(md, ms) && n <= |ms|
    ensures mh in KeptMethods(md, settings, ms, n) <==> mh in ms[..n] && !Skipped(settings, md.methodDefs[mh])
  {
    if n > 0 {
      assert ms[..n] == ms[..n - 1] + [ms[n - 1]];
      KeptMethodsExact(md, settings, ms, n - 1, mh);
    }
  }

  /**
   * records[m] for each of the first n methods m of ms that pass 1 does not
   * skip, in list order; records is indexed by method row.
   */
  function KeptRecords<T>(md: Store, settings: CommandLine.Settings, ms: seq<nat>, n: nat, records: seq<T>)
    : (kept: seq<T>)
    requires MethodsInRange(md, ms) && n <= |ms| && |records| == |md.methodDefs|
  {
    if n == 0 then []
    else
      var mh := ms[n - 1];
      KeptRecords(md, settings, ms, n - 1, records) + (if Skipped(settings, md.methodDefs[mh]) then [] else [records[mh]])
  }

  /** The k-th kept record is that of the k-th kept method. */
  lemma {:induction false} KeptRecordsOfKept<T>(
    md: Store, settings: CommandLine.Settings, ms: seq<nat>, n: nat, records: seq<T>)
    requires MethodsInRange(md, ms) && n <= |ms| && |records| == |md.methodDefs|
    ensures var kept := KeptMethods(md, settings, ms, n);
      && |KeptRecords(md, settings, ms, n, records)| == |kept|
      && forall k :: 0 <= k < |kept| ==> KeptRecords(md, settings, ms, n, records)[k] == records[kept[k]]
  {
    if n > 0 {
      KeptRecordsOfKept(md, settings, ms, n - 1, records);
    }
  }

  /** The record pass 1 would build for each method row, as a member of type th. */
  ghost function MethodRecords(md: Store, th: nat): (records: seq<MethodModel>)
    requires ValidTypeDef(md, th) && |md.methodDefs| < MaxRows
    ensures |records| == |md.methodDefs|
  {
    seq(|md.methodDefs|, mh requires 0 <= mh < |md.methodDefs| => MethodModelOf(md, th, mh))
  }

  ghost function TypeModelOf(md: Store, settings: CommandLine.Settings, th: nat): TypeModel
    requires WellFormed(md) && th < |md.typeDefs|
  {
    var ms := md.typeDefs[th].methods;
    TypeModel(TypeDefKeyOf(md, th), TypeKind(md.typeDefs[th].attributes),
              KeptRecords(md, settings, ms, |ms|, MethodRecords(md, th)))
  }

  /** result.Types after pass 1: one record per type, in table order. */
  ghost function TypesOf(md: Store, settings: CommandLine.Settings): (types: seq<TypeModel>)
    requires WellFormed(md)
    ensures |types| == |md.typeDefs|
  {
    seq(|md.typeDefs|, th requires 0 <= th < |md.typeDefs| => TypeModelOf(md, settings, th))
  }

  predicate DistinctRows(ms: seq<nat>) {
    forall i, j :: 0 <= i < j < |ms| ==> ms[i] != ms[j]
  }

  /** No method of ms is in the lookup before its type is scanned. */
  predicate NoneInserted(md: Store, lookup: map<Token, MethodDef>, ms: seq<nat>)
    requires |md.methodDefs| < MaxRows && MethodsInRange(md, ms)
  {
    forall j :: 0 <= j < |ms| ==> MethodDefToken(ms[j]) !in lookup
  }

  /** Dictionary.Add at Program.cs:172 never meets a key that is already present. */
  lemma NotYetInserted(
    md: Store, settings: CommandLine.Settings, lookup0: map<Token, MethodDef>, ms: seq<nat>, j: nat)
    requires |md.methodDefs| < MaxRows && MethodsInRange(md, ms) && j < |ms|
    requires DistinctRows(ms) && NoneInserted(md, lookup0, ms)
    ensures MethodDefToken(ms[j]) !in InsertMethods(md, settings, lookup0, ms, j)
  {
    assert ms[j] !in ms[..j] by {
      forall i | 0 <= i < j
        ensures ms[..j][i] != ms[j]
      {
        assert ms[i] != ms[j];
      }
    }
    InsertMethodsHas(md, settings, lookup0, ms, j, ms[j]);
  }

  /** One pass of the loop at Program.cs:97-185: the j-th method of type th. */
  method ScanTypeMethod(
    md: Store, settings: CommandLine.Settings, th: nat, lookup0: map<Token, MethodDef>, j: nat,
    methods0: seq<MethodModel>, lookup1: map<Token, MethodDef>)
    returns (methods: seq<MethodModel>, lookup: map<Token, MethodDef>)
    requires ValidTypeDef(md, th) && |md.methodDefs| < MaxRows
    requires MethodsInRange(md, md.typeDefs[th].methods) && DistinctRows(md.typeDefs[th].methods)
    requires NoneInserted(md, lookup0, md.typeDefs[th].methods)
    requires j < |md.typeDefs[th].methods|
    requires methods0 == KeptRecords(md, settings, md.typeDefs[th].methods, j, MethodRecords(md, th))
    requires lookup1 == InsertMethods(md, settings, lookup0, md.typeDefs[th].methods, j)
    ensures methods == KeptRecords(md, settings, md.typeDefs[th].methods, j + 1, MethodRecords(md, th))
    ensures lookup == InsertMethods(md, settings, lookup0, md.typeDefs[th].methods, j + 1)
  {
    methods, lookup := methods0, lookup1;
    var mh := md.typeDefs[th].methods[j];
    var methodDef := md.methodDefs[mh];
    if !(methodDef.isCompilerGenerated && settings.ignoreCompilerGeneratedMethods) {
      var methodModel := ScanMethod(md, th, mh);
      assert methodModel == MethodRecords(md, th)[mh];
      assert MethodDefToken(mh) !in lookup by {
        NotYetInserted(md, settings, lookup0, md.typeDefs[th].methods, j);
      }
      lookup := lookup[MethodDefToken(mh) := methodDef];
      methods := methods + [methodModel];
    }
    assert lookup == InsertMethod(md, settings, lookup1, mh);
  }

  /** Program.cs:97-185: the methods of type th, and the lookup with them added. */
  method ScanTypeMethods(md: Store, settings: CommandLine.Settings, th: nat, lookup0: map<Token, MethodDef>)
    returns (methods: seq<MethodModel>, lookup: map<Token, MethodDef>)
    requires ValidTypeDef(md, th) && |md.methodDefs| < MaxRows
    requires MethodsInRange(md, md.typeDefs[th].methods) && DistinctRows(md.typeDefs[th].methods)
    requires NoneInserted(md, lookup0, md.typeDefs[th].methods)
    ensures methods == KeptRecords(md, settings, md.typeDefs[th].methods, |md.typeDefs[th].methods|, MethodRecords(md, th))
    ensures lookup == InsertMethods(md, settings, lookup0, md.typeDefs[th].methods, |md.typeDefs[th].methods|)
  {
    methods := [];
    lookup := lookup0;
    var j := 0;
    while j < |md.typeDefs[th].methods|
      invariant 0 <= j <= |md.typeDefs[th].methods|
      invariant methods == KeptRecords(md, settings, md.typeDefs[th].methods, j, MethodRecords(md, th))
      invariant lookup == InsertMethods(md, settings, lookup0, md.typeDefs[th].methods, j)
    {
      methods, lookup := ScanTypeMethod(md, settings, th, lookup0, j, methods, lookup);
      j := j + 1;
    }
  }

  /** What scanning type th relies on, from a well-formed image and the lookup of the earlier types. */
  lemma ScanTypeReady(md: Store, settings: CommandLine.Settings, th: nat)
    requires WellFormed(md) && th < |md.typeDefs|
    ensures ValidTypeDef(md, th)
    ensures MethodsInRange(md, md.typeDefs[th].methods) && DistinctRows(md.typeDefs[th].methods)
    ensures NoneInserted(md, LookupUpTo(md, settings, th), md.typeDefs[th].methods)
  {
    var ms := md.typeDefs[th].methods;
    forall j | 0 <= j < |ms|
      ensures MethodDefToken(ms[j]) !in LookupUpTo(md, settings, th)
    {
      LookupUpToHas(md, settings, th, ms[j]);
    }
  }

  /** A prefix one longer is the prefix and then the next element. */
  lemma PrefixSnoc<T>(s: seq<T>, i: nat)
    requires i < |s|
    ensures s[..i + 1] == s[..i] + [s[i]]
  {
  }

  /** The first th + 1 type records are the first th and then type th's. */
  lemma TypesOfSnoc(md: Store, settings: CommandLine.Settings, th: nat)
    requires WellFormed(md) && th < |md.typeDefs|
    ensures TypesOf(md, settings)[..th + 1] == TypesOf(md, settings)[..th] + [TypeModelOf(md, settings, th)]
  {
    PrefixSnoc(TypesOf(md, settings), th);
  }

  /** Program.cs:86-187: type th's record appended to the types, and its methods added to the lookup. */
  method ScanType(
    md: Store, settings: CommandLine.Settings, th: nat, types0: seq<TypeModel>, lookup0: map<Token, MethodDef>)
    returns (types: seq<TypeModel>, lookup: map<Token, MethodDef>)
    requires WellFormed(md) && th < |md.typeDefs|
    requires types0 == TypesOf(md, settings)[..th]
    requires lookup0 == LookupUpTo(md, settings, th)
    ensures types == TypesOf(md, settings)[..th + 1]
    ensures lookup == LookupUpTo(md, settings, th + 1)
  {
    ScanTypeReady(md, settings, th);
    var typeName := TypeDefKey(md, th);
    var methods;
    methods, lookup := ScanTypeMethods(md, settings, th, lookup0);
    var typeModel := TypeModel(typeName, TypeKind(md.typeDefs[th].attributes), methods);
    assert typeModel == TypeModelOf(md, settings, th);
    TypesOfSnoc(md, settings, th);
    types := types0 + [typeModel];
  }

  /** Program.cs:84-188. */
  method Pass1(md: Store, settings: CommandLine.Settings) returns (types: seq<TypeModel>, lookup: map<Token, MethodDef>)
    requires WellFormed(md)
    ensures types == TypesOf(md, settings)
    ensures lookup == LookupOf(md, settings)
  {
    types := [];
    lookup := map[];
    var th := 0;
    while th < |md.typeDefs|
      invariant 0 <= th <= |md.typeDefs|
      invariant types == TypesOf(md, settings)[..th]
      invariant lookup == LookupUpTo(md, settings, th)
    {
      types, lookup := ScanType(md, settings, th, types, lookup);
      th := th + 1;
    }
    assert TypesOf(md, settings)[..th] == TypesOf(md, settings);
  }

  /**
   * Type th's record has the type's key and kind, and its k-th method record
   * is that of the k-th method of the type that is not skipped; a method of
   * the image is among them exactly when it is listed under th and not skipped.
   */
  lemma TypeModelContents(md: Store, settings: CommandLine.Settings, th: nat, mh: nat)
    requires WellFormed(md) && th < |md.typeDefs|
    ensures TypesOf(md, settings)[th].name == TypeDefKeyOf(md, th)
    ensures TypesOf(md, settings)[th].kind == TypeKind(md.typeDefs[th].attributes)
    ensures var ms := md.typeDefs[th].methods;
      var kept := KeptMethods(md, settings, ms, |ms|);
      && |TypesOf(md, settings)[th].methods| == |kept|
      && (forall k :: 0 <= k < |kept| ==> TypesOf(md, settings)[th].methods[k] == MethodModelOf(md, th, kept[k]))
      && (mh in kept <==> mh in ms && !Skipped(settings, md.methodDefs[mh]))
  {
    var ms := md.typeDefs[th].methods;
    KeptRecordsOfKept(md, settings, ms, |ms|, MethodRecords(md, th));
    KeptMethodsExact(md, settings, ms, |ms|, mh);
    assert ms[..|ms|] == ms;
  }

  // ---------------------------------------------------------------- pass 2

  /**
   * What a hit records. The source records the caller's own Name and RVA
   * (Program.cs:218-222); RecordCallee records the callee's key and RVA.
   */
  datatype HitPolicy = RecordCaller | RecordCallee

  /** The CalledMethodModel for one entry of the caller's call index. */
  ghost function CallRecordOf(
    md: Store, lookup: map<Token, MethodDef>, policy: HitPolicy, caller: MethodModel, e: CallIndexEntry)
    : CalledMethodModel
    requires WellFormed(md) && LookupFaithful(md, lookup)
  {
    if e.handle !in lookup then CalledMethodModel(e.fallbackName, 0)
    else
      match policy
      case RecordCaller => CalledMethodModel(caller.name, caller.rva)
      case RecordCallee =>
        var callee := lookup[e.handle];
        CalledMethodModel(MethodDefKeyOf(md, callee.declaringType, MethodDefRow(e.handle)), callee.rva)
  }

  ghost function CallRecordsOf(md: Store, lookup: map<Token, MethodDef>, policy: HitPolicy, caller: MethodModel)
    : seq<CalledMethodModel>
    requires WellFormed(md) && LookupFaithful(md, lookup)
  {
    seq(|caller.calledMethodHandles|, k requires 0 <= k < |caller.calledMethodHandles| =>
      CallRecordOf(md, lookup, policy, caller, caller.calledMethodHandles[k]))
  }

  ghost function ResolvedMethod(md: Store, lookup: map<Token, MethodDef>, policy: HitPolicy, m: MethodModel): MethodModel
    requires WellFormed(md) && LookupFaithful(md, lookup)
  {
    m.(calledMethods := m.calledMethods + CallRecordsOf(md, lookup, policy, m))
  }

  ghost function ResolvedType(md: Store, lookup: map<Token, MethodDef>, policy: HitPolicy, t: TypeModel): TypeModel
    requires WellFormed(md) && LookupFaithful(md, lookup)
  {
    t.(methods := seq(|t.methods|, j requires 0 <= j < |t.methods| => ResolvedMethod(md, lookup, policy, t.methods[j])))
  }

  ghost function ResolvedTypes(md: Store, lookup: map<Token, MethodDef>, policy: HitPolicy, types: seq<TypeModel>)
    : seq<TypeModel>
    requires WellFormed(md) && LookupFaithful(md, lookup)
  {
    seq(|types|, i requires 0 <= i < |types| => ResolvedType(md, lookup, policy, types[i]))
  }

  /** Program.cs:196-224 for one method. */
  method ResolveCalls(md: Store, lookup: map<Token, MethodDef>, policy: HitPolicy, m: MethodModel)
    returns (r: MethodModel)
    requires WellFormed(md) && LookupFaithful(md, lookup)
    ensures r == ResolvedMethod(md, lookup, policy, m)
  {
    ghost var records := CallRecordsOf(md, lookup, policy, m);
    var calledMethods := m.calledMethods;
    var k := 0;
    while k < |m.calledMethodHandles|
      invariant 0 <= k <= |m.calledMethodHandles|
      invariant calledMethods == m.calledMethods + records[..k]
    {
      assert records[..k + 1] == records[..k] + [records[k]];
      var handle := m.calledMethodHandles[k].handle;
      var fallbackName := m.calledMethodHandles[k].fallbackName;
      if handle !in lookup {
        calledMethods := calledMethods + [CalledMethodModel(fallbackName, 0)];
      } else {
        var calledMethodDef := lookup[handle];
        match policy {
          case RecordCaller =>
            calledMethods := calledMethods + [CalledMethodModel(m.name, m.rva)];
          case RecordCallee =>
            var name := MethodDefKey(md, calledMethodDef.declaringType, MethodDefRow(handle));
            calledMethods := calledMethods + [CalledMethodModel(name, calledMethodDef.rva)];
        }
      }
      k := k + 1;
    }
    assert records[..k] == records;
    r := m.(calledMethods := calledMethods);
  }

  method ResolveType(md: Store, lookup: map<Token, MethodDef>, policy: HitPolicy, t: TypeModel) returns (r: TypeModel)
    requires WellFormed(md) && LookupFaithful(md, lookup)
    ensures r == ResolvedType(md, lookup, policy, t)
  {
    var methods: seq<MethodModel> := [];
    var j := 0;
    while j < |t.methods|
      invariant 0 <= j <= |t.methods|
      invariant |methods| == j
      invariant forall i :: 0 <= i < j ==> methods[i] == ResolvedMethod(md, lookup, policy, t.methods[i])
    {
      var m := ResolveCalls(md, lookup, policy, t.methods[j]);
      methods := methods + [m];
      j := j + 1;
    }
    r := t.(methods := methods);
  }

  /** Program.cs:192-226. */
  method Pass2(md: Store, lookup: map<Token, MethodDef>, policy: HitPolicy, types: seq<TypeModel>)
    returns (r: seq<TypeModel>)
    requires WellFormed(md) && LookupFaithful(md, lookup)
    ensures r == ResolvedTypes(md, lookup, policy, types)
  {
    r := [];
    var i := 0;
    while i < |types|
      invariant 0 <= i <= |types|
      invariant |r| == i
      invariant forall k :: 0 <= k < i ==> r[k] == ResolvedType(md, lookup, policy, types[k])
    {
      var t := ResolveType(md, lookup, policy, types[i]);
      r := r + [t];
      i := i + 1;
    }
  }

  /** A miss records exactly the fallback name, at address 0; that name still ends with the callee's token. */
  lemma MissRecordsFallback(
    md: Store, lookup: map<Token, MethodDef>, policy: HitPolicy, caller: MethodModel, e: CallIndexEntry)
    requires WellFormed(md) && LookupFaithful(md, lookup)
    requires e.handle !in lookup && EndsWithToken(e.fallbackName, e.handle)
    ensures CallRecordOf(md, lookup, policy, caller, e) == CalledMethodModel(e.fallbackName, 0)
    ensures CallRecordOf(md, lookup, policy, caller, e).address == 0
    ensures EndsWithToken(CallRecordOf(md, lookup, policy, caller, e).name, e.handle)
  {
  }

  /** As written, every hit of one caller gives the same record, whichever callee it names. */
  lemma AsWrittenHitIgnoresCallee(
    md: Store, lookup: map<Token, MethodDef>, caller: MethodModel, e1: CallIndexEntry, e2: CallIndexEntry)
    requires WellFormed(md) && LookupFaithful(md, lookup)
    requires e1.handle in lookup && e2.handle in lookup
    ensures CallRecordOf(md, lookup, RecordCaller, caller, e1) == CalledMethodModel(caller.name, caller.rva)
    ensures CallRecordOf(md, lookup, RecordCaller, caller, e1) == CallRecordOf(md, lookup, RecordCaller, caller, e2)
  {
  }

  /**
   * So, as written, the record of a call from one method of the image to a
   * different one names the caller and not the callee.
   */
  lemma AsWrittenHitMisnamesCallee(
    md: Store, settings: CommandLine.Settings, th: nat, caller: nat, callee: nat, e: CallIndexEntry)
    requires WellFormed(md) && th < |md.typeDefs| && caller < |md.methodDefs| && callee < |md.methodDefs|
    requires caller != callee && Listed(md, callee) && !Skipped(settings, md.methodDefs[callee])
    requires e.handle == MethodDefToken(callee)
    ensures LookupFaithful(md, LookupOf(md, settings))
    ensures CallRecordOf(md, LookupOf(md, settings), RecordCaller, MethodModelOf(md, th, caller), e).name
            == MethodModelOf(md, th, caller).name
    ensures CallRecordOf(md, LookupOf(md, settings), RecordCaller, MethodModelOf(md, th, caller), e).name
            != MethodModelOf(md, md.methodDefs[callee].declaringType, callee).name
  {
    LookupOfHas(md, settings, callee);
    MethodDefKeysDistinct(md, th, caller, md.methodDefs[callee].declaringType, callee);
  }

  /** Recording the callee, a hit names the callee as pass 1 named it, at the callee's RVA. */
  lemma CorrectedHitNamesCallee(
    md: Store, settings: CommandLine.Settings, caller: MethodModel, callee: nat, e: CallIndexEntry)
    requires WellFormed(md) && callee < |md.methodDefs|
    requires Listed(md, callee) && !Skipped(settings, md.methodDefs[callee])
    requires e.handle == MethodDefToken(callee)
    ensures LookupFaithful(md, LookupOf(md, settings))
    ensures var own := MethodModelOf(md, md.methodDefs[callee].declaringType, callee);
      && own in TypesOf(md, settings)[md.methodDefs[callee].declaringType].methods
      && CallRecordOf(md, LookupOf(md, settings), RecordCallee, caller, e) == CalledMethodModel(own.name, own.rva)
  {
    var th := md.methodDefs[callee].declaringType;
    LookupOfHas(md, settings, callee);
    MethodDefTokenRow(md, callee);
    TypeModelContents(md, settings, th, callee);
    var ms := md.typeDefs[th].methods;
    var kept := KeptMethods(md, settings, ms, |ms|);
    var k :| 0 <= k < |kept| && kept[k] == callee;
    assert TypesOf(md, settings)[th].methods[k] == MethodModelOf(md, th, callee);
  }

  /** Calls to a skipped method resolve as misses. */
  lemma SkippedCalleeMisses(md: Store, settings: CommandLine.Settings, mh: nat)
    requires WellFormed(md) && mh < |md.methodDefs| && Skipped(settings, md.methodDefs[mh])
    ensures MethodDefToken(mh) !in LookupOf(md, settings)
  {
    LookupOfHas(md, settings, mh);
  }

  /** A token that names no method-definition row of the image, whatever the resolved callee reports, is a miss. */
  lemma ForeignTokenMisses(md: Store, settings: CommandLine.Settings, t: Token)
    requires WellFormed(md) && !IsMethodDefTokenOf(md, t)
    ensures t !in LookupOf(md, settings)
  {
    LookupUpToFaithful(md, settings, |md.typeDefs|);
  }

  /**
   * Why there are two passes: when a method's call index is built, a callee
   * declared by a later type is not yet in the lookup, but it is in the
   * lookup pass 2 reads.
   */
  lemma ForwardCallNeedsSecondPass(md: Store, settings: CommandLine.Settings, th: nat, callee: nat)
    requires WellFormed(md) && th < |md.typeDefs| && callee < |md.methodDefs|
    requires Listed(md, callee) && !Skipped(settings, md.methodDefs[callee])
    requires md.methodDefs[callee].declaringType > th
    ensures MethodDefToken(callee) !in LookupUpTo(md, settings, th + 1)
    ensures MethodDefToken(callee) in LookupOf(md, settings)
  {
    LookupUpToHas(md, settings, th + 1, callee);
    LookupOfHas(md, settings, callee);
  }

  /**
   * Pass 2 leaves every type and method record as it was except for
   * CalledMethods, to which it appends one record per call-index entry, in
   * index order.
   */
  lemma ResolvedTypesShape(
    md: Store, lookup: map<Token, MethodDef>, policy: HitPolicy, types: seq<TypeModel>, i: nat, j: nat)
    requires WellFormed(md) && LookupFaithful(md, lookup)
    requires i < |types| && j < |types[i].methods|
    ensures |ResolvedTypes(md, lookup, policy, types)| == |types|
    ensures var t := ResolvedTypes(md, lookup, policy, types)[i];
      t.name == types[i].name && t.kind == types[i].kind && |t.methods| == |types[i].methods|
    ensures var m := ResolvedTypes(md, lookup, policy, types)[i].methods[j];
      var m0 := types[i].methods[j];
      && m.(calledMethods := m0.calledMethods) == m0
      && |m.calledMethods| == |m0.calledMethods| + |m0.calledMethodHandles|
      && m.calledMethods[..|m0.calledMethods|] == m0.calledMethods
      && forall k :: 0 <= k < |m0.calledMethodHandles| ==>
           m.calledMethods[|m0.calledMethods| + k] == CallRecordOf(md, lookup, policy, m0, m0.calledMethodHandles[k])
  {
  }

  // ---------------------------------------------------------------- imported functions

  /** A member reference whose parent is a type reference and whose kind is Method. */
  predicate IsImportedFunction(r: MemberRef) {
    r.parent.ParentTypeReference? && r.isMethod
  }

  /** ImportedFunctions.Any(f => f.FullTypeName == name). */
  predicate HasFullTypeName(fs: seq<ImportedFunctionModel>, name: string) {
    exists i :: 0 <= i < |fs| && fs[i].fullTypeName == name
  }

  /** The list the Any check builds from a sequence of names: each name is added unless present. */
  function AddUnseen(names: seq<string>): seq<ImportedFunctionModel>
    decreases |names|
  {
    if names == [] then []
    else
      var prev := AddUnseen(names[..|names| - 1]);
      var name := names[|names| - 1];
      if HasFullTypeName(prev, name) then prev else prev + [ImportedFunctionModel(name)]
  }

  /** The Any check keeps full names unique. */
  lemma {:induction false} AddUnseenDistinct(names: seq<string>)
    ensures forall i, j :: 0 <= i < j < |AddUnseen(names)| ==>
      AddUnseen(names)[i].fullTypeName != AddUnseen(names)[j].fullTypeName
    decreases |names|
  {
    if names != [] {
      AddUnseenDistinct(names[..|names| - 1]);
    }
  }

  /** On names that are already distinct the check drops nothing. */
  lemma {:induction false} AddUnseenOfDistinct(names: seq<string>)
    requires forall i, j :: 0 <= i < j < |names| ==> names[i] != names[j]
    ensures |AddUnseen(names)| == |names|
    ensures forall i :: 0 <= i < |names| ==> AddUnseen(names)[i].fullTypeName == names[i]
    decreases |names|
  {
    if names != [] {
      var init := names[..|names| - 1];
      AddUnseenOfDistinct(init);
      assert !HasFullTypeName(AddUnseen(init), names[|names| - 1]);
    }
  }

  /** The key of every member reference, in table order. */
  ghost function MemberRefKeys(md: Store): (keys: seq<string>)
    requires WellFormed(md)
    ensures |keys| == |md.memberRefs|
  {
    seq(|md.memberRefs|, h requires 0 <= h < |md.memberRefs| => MemberRefKeyOf(md, h))
  }

  /** The keys, among the first n, of the member references that qualify, in table order. */
  function ImportCandidates(md: Store, keys: seq<string>, n: nat): seq<string>
    requires |keys| == |md.memberRefs| && n <= |md.memberRefs|
  {
    if n == 0 then []
    else
      ImportCandidates(md, keys, n - 1)
        + (if IsImportedFunction(md.memberRefs[n - 1]) then [keys[n - 1]] else [])
  }

  /** ImportedFunctions after the loop of Program.cs:229-244. */
  ghost function ImportedFunctionsOf(md: Store): seq<ImportedFunctionModel>
    requires WellFormed(md)
  {
    AddUnseen(ImportCandidates(md, MemberRefKeys(md), |md.memberRefs|))
  }

  /** Program.cs:229-244. */
  method CollectImportedFunctions(md: Store) returns (fs: seq<ImportedFunctionModel>)
    requires WellFormed(md)
    ensures fs == ImportedFunctionsOf(md)
  {
    ghost var keys := MemberRefKeys(md);
    fs := [];
    var h := 0;
    while h < |md.memberRefs|
      invariant 0 <= h <= |md.memberRefs|
      invariant fs == AddUnseen(ImportCandidates(md, keys, h))
    {
      var memberRef := md.memberRefs[h];
      if memberRef.parent.ParentTypeReference? && memberRef.isMethod {
        var methodName := MemberRefKey(md, h);
        ghost var selected := ImportCandidates(md, keys, h + 1);
        assert selected == ImportCandidates(md, keys, h) + [methodName];
        assert selected[..|selected| - 1] == ImportCandidates(md, keys, h);
        if !HasFullTypeName(fs, methodName) {
          fs := fs + [ImportedFunctionModel(methodName)];
        }
      } else {
        assert ImportCandidates(md, keys, h + 1) == ImportCandidates(md, keys, h) + [];
        assert ImportCandidates(md, keys, h) + [] == ImportCandidates(md, keys, h);
      }
      h := h + 1;
    }
  }

  /** The rows of the member references that qualify, in table order. */
  function EligibleRows(md: Store, n: nat): (rows: seq<nat>)
    requires n <= |md.memberRefs|
    ensures forall i :: 0 <= i < |rows| ==> rows[i] < n
  {
    if n == 0 then []
    else EligibleRows(md, n - 1) + (if IsImportedFunction(md.memberRefs[n - 1]) then [n - 1] else [])
  }

  /** The qualifying rows are exactly those with a type-reference parent and method kind, ascending. */
  lemma {:induction false} EligibleRowsExact(md: Store, n: nat, h: nat)
    requires n <= |md.memberRefs|
    ensures h in EligibleRows(md, n) <==> h < n && IsImportedFunction(md.memberRefs[h])
    ensures forall i, j :: 0 <= i < j < |EligibleRows(md, n)| ==> EligibleRows(md, n)[i] < EligibleRows(md, n)[j]
  {
    if n > 0 {
      EligibleRowsExact(md, n - 1, h);
    }
  }

  lemma {:induction false} ImportCandidatesRows(md: Store, keys: seq<string>, n: nat)
    requires |keys| == |md.memberRefs| && n <= |md.memberRefs|
    ensures |ImportCandidates(md, keys, n)| == |EligibleRows(md, n)|
    ensures forall i :: 0 <= i < |EligibleRows(md, n)| ==>
      ImportCandidates(md, keys, n)[i] == keys[EligibleRows(md, n)[i]]
  {
    if n > 0 {
      ImportCandidatesRows(md, keys, n - 1);
    }
  }

  /** Distinct rows have distinct keys. */
  lemma ImportCandidatesDistinct(md: Store)
    requires WellFormed(md)
    ensures var keys := ImportCandidates(md, MemberRefKeys(md), |md.memberRefs|);
      forall i, j :: 0 <= i < j < |keys| ==> keys[i] != keys[j]
  {
    var n := |md.memberRefs|;
    var keys := ImportCandidates(md, MemberRefKeys(md), n);
    var rows := EligibleRows(md, n);
    ImportCandidatesRows(md, MemberRefKeys(md), n);
    EligibleRowsExact(md, n, 0);
    forall i, j | 0 <= i < j < |keys|
      ensures keys[i] != keys[j]
    {
      MemberRefKeysDistinct(md, rows[i], rows[j]);
    }
  }

  /**
   * Every member-reference key ends with its own token, so the Any check never
   * drops an entry: the list holds one key per qualifying member reference,
   * in table order, and no full name twice.
   */
  lemma ImportedFunctionsAreEligibleRows(md: Store)
    requires WellFormed(md)
    ensures |ImportedFunctionsOf(md)| == |EligibleRows(md, |md.memberRefs|)|
    ensures forall i :: 0 <= i < |ImportedFunctionsOf(md)| ==>
      ImportedFunctionsOf(md)[i].fullTypeName == MemberRefKeyOf(md, EligibleRows(md, |md.memberRefs|)[i])
    ensures forall i, j :: 0 <= i < j < |ImportedFunctionsOf(md)| ==>
      ImportedFunctionsOf(md)[i].fullTypeName != ImportedFunctionsOf(md)[j].fullTypeName
  {
    var keys := ImportCandidates(md, MemberRefKeys(md), |md.memberRefs|);
    ImportCandidatesRows(md, MemberRefKeys(md), |md.memberRefs|);
    ImportCandidatesDistinct(md);
    AddUnseenOfDistinct(keys);
    AddUnseenDistinct(keys);
  }

  // ---------------------------------------------------------------- imported and exported types

  function ImportedTypesOf(md: Store): seq<ImportedTypeModel>
    requires |md.typeRefs| < MaxRows
  {
    seq(|md.typeRefs|, h requires 0 <= h < |md.typeRefs| => ImportedTypeModel(TypeRefKey(md, h)))
  }

  function ExportedTypesOf(md: Store): seq<ExportedTypeModel>
    requires |md.exportedTypes| < MaxRows
  {
    seq(|md.exportedTypes|, h requires 0 <= h < |md.exportedTypes| => ExportedTypeModel(ExportedTypeKey(md, h)))
  }

  /** Program.cs:247-254. */
  method CollectImportedTypes(md: Store) returns (ts: seq<ImportedTypeModel>)
    requires |md.typeRefs| < MaxRows
    ensures ts == ImportedTypesOf(md)
  {
    ts := [];
    var h := 0;
    while h < |md.typeRefs|
      invariant 0 <= h <= |md.typeRefs|
      invariant ts == ImportedTypesOf(md)[..h]
    {
      ts := ts + [ImportedTypeModel(TypeRefKey(md, h))];
      h := h + 1;
    }
  }

  /** Program.cs:257-264. */
  method CollectExportedTypes(md: Store) returns (ts: seq<ExportedTypeModel>)
    requires |md.exportedTypes| < MaxRows
    ensures ts == ExportedTypesOf(md)
  {
    ts := [];
    var h := 0;
    while h < |md.exportedTypes|
      invariant 0 <= h <= |md.exportedTypes|
      invariant ts == ExportedTypesOf(md)[..h]
    {
      ts := ts + [ExportedTypeModel(ExportedTypeKey(md, h))];
      h := h + 1;
    }
  }

  /** One entry per type reference and per exported type, no two with the same name. */
  lemma TypeListsDistinct(md: Store, i: nat, j: nat)
    requires |md.typeRefs| < MaxRows && |md.exportedTypes| < MaxRows && i < j
    ensures j < |md.typeRefs| ==> ImportedTypesOf(md)[i].fullTypeName != ImportedTypesOf(md)[j].fullTypeName
    ensures j < |md.exportedTypes| ==> ExportedTypesOf(md)[i].fullTypeName != ExportedTypesOf(md)[j].fullTypeName
  {
    if j < |md.typeRefs| {
      TypeRefKeysDistinct(md, i, j);
    }
    if j < |md.exportedTypes| {
      ExportedTypeKeysDistinct(md, i, j);
    }
  }

  // ---------------------------------------------------------------- the whole analysis

  datatype PEHeader = PEHeader(imageBase: nat, addressOfEntryPoint: nat, sectionAlignment: nat, fileAlignment: nat)

  /** What the PE reader gives: the file's length, its optional PE header and its metadata. */
  datatype Image = Image(fileSize: nat, peHeader: Option<PEHeader>, metadata: Store)

  /** The result the analysis serialises, or None when the image has no PE header. */
  ghost function AnalysisOf(settings: CommandLine.Settings, image: Image, policy: HitPolicy): Option<DataModel>
    requires WellFormed(image.metadata)
  {
    match image.peHeader
    case None => None
    case Some(pe) =>
      var md := image.metadata;
      Some(DataModel(
        ResolvedTypes(md, LookupOf(md, settings), policy, TypesOf(md, settings)),
        ImportedFunctionsOf(md), ImportedTypesOf(md), ExportedTypesOf(md),
        PEInformationModel(image.fileSize, pe.imageBase, pe.addressOfEntryPoint, pe.sectionAlignment, pe.fileAlignment)))
  }

  method AnalyzeAssembly(settings: CommandLine.Settings, image: Image, policy: HitPolicy) returns (result: Option<DataModel>)
    requires WellFormed(image.metadata)
    ensures result == AnalysisOf(settings, image, policy)
  {
    if image.peHeader.None? {
      return None;
    }
    var pe := image.peHeader.value;
    var md := image.metadata;
    var peInformation := PEInformationModel(image.fileSize, pe.imageBase, pe.addressOfEntryPoint,
                                            pe.sectionAlignment, pe.fileAlignment);
    var types, lookup := Pass1(md, settings);
    LookupUpToFaithful(md, settings, |md.typeDefs|);
    types := Pass2(md, lookup, policy, types);
    var importedFunctions := CollectImportedFunctions(md);
    var importedTypes := CollectImportedTypes(md);
    var exportedTypes := CollectExportedTypes(md);
    result := Some(DataModel(types, importedFunctions, importedTypes, exportedTypes, peInformation));
  }

  /**
   * The result as the source computes it: when the IL of a method pass 1
   * scans does not decode, the exception of Program.cs:125-126 reaches the
   * handler at Program.cs:291-295 and the run ends without a result.
   */
  ghost function AnalysisAsWritten(settings: CommandLine.Settings, image: Image, policy: HitPolicy): Option<DataModel>
    requires WellFormed(image.metadata)
  {
    var md := image.metadata;
    if exists mh :: 0 <= mh < |md.methodDefs| && Listed(md, mh) && !Skipped(settings, md.methodDefs[mh])
                    && IlReadFails(md.methodDefs[mh])
    then None
    else AnalysisOf(settings, image, policy)
  }

  /** As written, one scanned method whose IL does not decode loses the whole result. */
  lemma AsWrittenIlFailureEndsRun(settings: CommandLine.Settings, image: Image, policy: HitPolicy, mh: nat)
    requires WellFormed(image.metadata) && mh < |image.metadata.methodDefs|
    requires Listed(image.metadata, mh) && !Skipped(settings, image.metadata.methodDefs[mh])
    requires IlReadFails(image.metadata.methodDefs[mh])
    ensures AnalysisAsWritten(settings, image, policy) == None
  {
  }

  /**
   * Isolated, the same image still gives a result, the method is still
   * among its type's records, and its record only lacks call records.
   */
  lemma IlFailureIsolatedInAnalysis(settings: CommandLine.Settings, image: Image, policy: HitPolicy, mh: nat)
    requires WellFormed(image.metadata) && image.peHeader.Some? && mh < |image.metadata.methodDefs|
    requires Listed(image.metadata, mh) && !Skipped(settings, image.metadata.methodDefs[mh])
    requires IlReadFails(image.metadata.methodDefs[mh])
    ensures AnalysisOf(settings, image, policy).Some?
    ensures var md := image.metadata;
      var th := md.methodDefs[mh].declaringType;
      var ms := md.typeDefs[th].methods;
      && mh in KeptMethods(md, settings, ms, |ms|)
      && MethodModelOf(md, th, mh).calledMethodHandles == []
      && MethodModelOf(md, th, mh).methodSize == |md.methodDefs[mh].body.ilBytes.value|
  {
    var md := image.metadata;
    var th := md.methodDefs[mh].declaringType;
    var ms := md.typeDefs[th].methods;
    KeptMethodsExact(md, settings, ms, |ms|, mh);
    assert ms[..|ms|] == ms;
    IlFailureIsolated(md.methodDefs[mh]);
  }

  /**
   * The analysis result: a record per type, named by its key, whose methods
   * are the type's unskipped methods with their calls resolved, and the
   * imported functions, one per qualifying member reference, without repeats.
   */
  lemma AnalysisContents(settings: CommandLine.Settings, image: Image, policy: HitPolicy, th: nat)
    requires WellFormed(image.metadata) && image.peHeader.Some? && th < |image.metadata.typeDefs|
    ensures LookupFaithful(image.metadata, LookupOf(image.metadata, settings))
    ensures AnalysisOf(settings, image, policy).Some?
    ensures var r := AnalysisOf(settings, image, policy).value;
      && |r.types| == |image.metadata.typeDefs|
      && r.types[th].name == TypeDefKeyOf(image.metadata, th)
      && r.types[th].kind == TypeKind(image.metadata.typeDefs[th].attributes)
      && |r.types[th].methods| == |TypesOf(image.metadata, settings)[th].methods|
      && (forall j :: 0 <= j < |r.types[th].methods| ==>
            r.types[th].methods[j] == ResolvedMethod(image.metadata, LookupOf(image.metadata, settings), policy,
                                                     TypesOf(image.metadata, settings)[th].methods[j]))
      && |r.importedFunctions| == |EligibleRows(image.metadata, |image.metadata.memberRefs|)|
      && (forall i, j :: 0 <= i < j < |r.importedFunctions| ==>
            r.importedFunctions[i].fullTypeName != r.importedFunctions[j].fullTypeName)
  {
    var md := image.metadata;
    LookupUpToFaithful(md, settings, |md.typeDefs|);
    ImportedFunctionsAreEligibleRows(md);
  }
}
