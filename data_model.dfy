/**
 * The records the analyzer fills and serialises (DataModel.cs), as values.
 * Lists are sequences; the per-method CalledMethodHandles dictionary is the
 * sequence of its entries in insertion order, which is the order in which
 * a dictionary that is only ever added to enumerates them.
 */
module Records {
  import opened Metadata

  datatype MethodParameterModel = MethodParameterModel(name: string, typeName: string)

  datatype CalledMethodModel = CalledMethodModel(name: string, address: nat)

  /** One entry of CalledMethodHandles: the callee's token and its fallback name. */
  datatype CallIndexEntry = CallIndexEntry(handle: Token, fallbackName: string)

  datatype MethodModel = MethodModel(
    name: string,
    rva: nat,
    methodSize: nat,
    parameters: seq<MethodParameterModel>,
    returnType: string,
    stringLiterals: seq<string>,
    ilBytes: string,
    decompiledSource: string,
    calledMethods: seq<CalledMethodModel>,
    calledMethodHandles: seq<CallIndexEntry>)

  datatype TypeModel = TypeModel(name: string, kind: string, methods: seq<MethodModel>)

  datatype ImportedFunctionModel = ImportedFunctionModel(fullTypeName: string)

  datatype ImportedTypeModel = ImportedTypeModel(fullTypeName: string)

  datatype ExportedTypeModel = ExportedTypeModel(fullTypeName: string)

  datatype PEInformationModel = PEInformationModel(
    fileSize: nat,
    imageBase: nat,
    entryPointRva: nat,
    sectionAlignment: nat,
    fileAlignment: nat)

  datatype DataModel = DataModel(
    types: seq<TypeModel>,
    importedFunctions: seq<ImportedFunctionModel>,
    importedTypes: seq<ImportedTypeModel>,
    exportedTypes: seq<ExportedTypeModel>,
    peInformation: PEInformationModel)
}
