/**
 The code generator's description of one contract method, and the questions
 the generator asks of it: which argument carries the payment amount or
 token, whether the method accepts payment and of what kind, the name it is
 exported under, whether it takes a variable number of arguments, and
 whether its body comes from a module. Parsed Rust syntax (identifiers,
 generics, blocks, token trees) is kept as opaque text.
 */
module MethodModel {
  import opened RustCore

  /** A piece of parsed Rust syntax, kept opaque. */
  datatype Syntax = Syntax(tokens: string)

  /** What role, if any, an argument plays in receiving the call's payment. */
  datatype ArgPaymentMetadata = NotPayment | Payment | PaymentToken | PaymentNonce

  datatype ArgMetadata = ArgMetadata(payment: ArgPaymentMetadata, varArgs: bool)

  datatype MethodArgument = MethodArgument(pat: Syntax, ty: Syntax, metadata: ArgMetadata)

  /** What a public method accepts as payment. */
  datatype MethodPayableMetadata = NotPayable | Egld | SingleEsdtToken(tokenName: string) | AnyToken {
    predicate IsPayable() {
      !NotPayable?
    }
  }

  datatype InitMetadata = InitMetadata(payable: MethodPayableMetadata)

  datatype EndpointMetadata = EndpointMetadata(publicName: string, payable: MethodPayableMetadata)

  datatype CallbackMetadata = CallbackMetadata(callbackName: string)

  datatype PublicRole =
    | Init(initMetadata: InitMetadata)
    | Endpoint(endpointMetadata: EndpointMetadata)
    | Callback(callbackMetadata: CallbackMetadata)
    | CallbackRaw
    | Private

  /** How the framework generates a method's implementation. */
  datatype AutoImpl =
    | LegacyEvent(legacyIdentifier: seq<u8>)
    | Event(identifier: string)
    | StorageGetter(getterIdentifier: string)
    | StorageSetter(setterIdentifier: string)
    | StorageMapper(mapperIdentifier: string)
    | StorageIsEmpty(isEmptyIdentifier: string)
    | StorageClear(clearIdentifier: string)
    | Module(implPath: Syntax)

  datatype MethodImpl = Generated(autoImpl: AutoImpl) | Explicit(block: Syntax) | NoImplementation

  datatype Method = Method(
    docs: seq<string>,
    publicRole: PublicRole,
    name: Syntax,
    generics: Syntax,
    remainingAttributes: seq<Syntax>,
    methodArgs: seq<MethodArgument>,
    outputNames: seq<string>,
    returnType: Syntax,
    implementation: MethodImpl)

  // ---------------------------------------------------------------------
  // Payment arguments
  // ---------------------------------------------------------------------

  /** `i` is the position of the first argument whose payment role is `kind`. */
  predicate IsFirstWith(args: seq<MethodArgument>, kind: ArgPaymentMetadata, i: int) {
    && 0 <= i < |args|
    && args[i].metadata.payment == kind
    && forall j :: 0 <= j < i ==> args[j].metadata.payment != kind
  }

  /** The first argument whose payment role is `kind`, if any has it. */
  function FindFirst(args: seq<MethodArgument>, kind: ArgPaymentMetadata): (r: Option<MethodArgument>)
    ensures r.None? <==> forall i :: 0 <= i < |args| ==> args[i].metadata.payment != kind
    ensures r.Some? ==> exists i :: IsFirstWith(args, kind, i) && args[i] == r.value
  {
    if |args| == 0 then None
    else if args[0].metadata.payment == kind then
      assert IsFirstWith(args, kind, 0);
      Some(args[0])
    else
      var rest := FindFirst(args[1..], kind);
      if rest.Some? then
        var i :| IsFirstWith(args[1..], kind, i) && args[1..][i] == rest.value;
        assert IsFirstWith(args, kind, i + 1);
        rest
      else
        assert forall i :: 1 <= i < |args| ==> args[i] == args[1..][i - 1];
        rest
  }

  function PaymentArg(m: Method): (r: Option<MethodArgument>)
    ensures r.None? <==> forall i :: 0 <= i < |m.methodArgs| ==> m.methodArgs[i].metadata.payment != Payment
    ensures r.Some? ==> exists i :: IsFirstWith(m.methodArgs, Payment, i) && m.methodArgs[i] == r.value
  {
    FindFirst(m.methodArgs, Payment)
  }

  function TokenArg(m: Method): (r: Option<MethodArgument>)
    ensures r.None? <==> forall i :: 0 <= i < |m.methodArgs| ==> m.methodArgs[i].metadata.payment != PaymentToken
    ensures r.Some? ==> exists i :: IsFirstWith(m.methodArgs, PaymentToken, i) && m.methodArgs[i] == r.value
  {
    FindFirst(m.methodArgs, PaymentToken)
  }

  // ---------------------------------------------------------------------
  // Payability and naming
  // ---------------------------------------------------------------------

  /** `is_payable`: callbacks always accept payment, private methods never,
      init and endpoints as their annotation says. */
  function IsPayable(m: Method): (r: bool)
    ensures m.publicRole.Callback? || m.publicRole.CallbackRaw? ==> r
    ensures m.publicRole.Private? ==> !r
    ensures m.publicRole.Init? ==> (r <==> m.publicRole.initMetadata.payable != NotPayable)
    ensures m.publicRole.Endpoint? ==> (r <==> m.publicRole.endpointMetadata.payable != NotPayable)
  {
    match m.publicRole
    case Init(initMetadata) => initMetadata.payable.IsPayable()
    case Endpoint(endpointMetadata) => endpointMetadata.payable.IsPayable()
    case Callback(_) => true
    case CallbackRaw => true
    case Private => false
  }

  /** `payable_metadata`: callbacks take any token, private methods nothing,
      init and endpoints what their annotation says. */
  function PayableMetadata(m: Method): (r: MethodPayableMetadata)
    ensures m.publicRole.Callback? || m.publicRole.CallbackRaw? ==> r == AnyToken
    ensures m.publicRole.Private? ==> r == NotPayable
    ensures m.publicRole.Init? ==> r == m.publicRole.initMetadata.payable
    ensures m.publicRole.Endpoint? ==> r == m.publicRole.endpointMetadata.payable
  {
    match m.publicRole
    case Init(initMetadata) => initMetadata.payable
    case Endpoint(endpointMetadata) => endpointMetadata.payable
    case Callback(_) => AnyToken
    case CallbackRaw => AnyToken
    case Private => NotPayable
  }

  /** The two questions agree for every role: a method is payable exactly
      when its payable metadata is. */
  lemma IsPayableAgreesWithMetadata(m: Method)
    ensures IsPayable(m) == PayableMetadata(m).IsPayable()
  {
  }

  const INIT_ENDPOINT_NAME: string := "init"

  /** `endpoint_name`: the name a public method is exported under. */
  function EndpointName(m: Method): (r: Option<string>)
    ensures r.Some? <==> m.publicRole.Init? || m.publicRole.Endpoint?
    ensures m.publicRole.Init? ==> r == Some(INIT_ENDPOINT_NAME)
    ensures m.publicRole.Endpoint? ==> r == Some(m.publicRole.endpointMetadata.publicName)
  {
    match m.publicRole
    case Init(_) => Some(INIT_ENDPOINT_NAME)
    case Endpoint(endpointMetadata) => Some(endpointMetadata.publicName)
    case _ => None
  }

  /** A method exported under no name is a callback or a private method, so
      it accepts payment exactly when it is not private; a named one
      accepts what its annotation says. */
  lemma UnnamedPayableUnlessPrivate(m: Method)
    ensures EndpointName(m).None? ==> (IsPayable(m) <==> !m.publicRole.Private?)
    ensures EndpointName(m).Some? ==>
      PayableMetadata(m) == (if m.publicRole.Init? then m.publicRole.initMetadata.payable
                             else m.publicRole.endpointMetadata.payable)
  {
  }

  // ---------------------------------------------------------------------
  // Argument shape and implementation kind
  // ---------------------------------------------------------------------

  /** Some argument takes a variable number of values. */
  function AnyVarArgs(args: seq<MethodArgument>): (r: bool)
    ensures r <==> exists i :: 0 <= i < |args| && args[i].metadata.varArgs
  {
    if |args| == 0 then false
    else if args[0].metadata.varArgs then true
    else
      assert forall i :: 1 <= i < |args| ==> args[i] == args[1..][i - 1];
      AnyVarArgs(args[1..])
  }

  function HasVariableNrArgs(m: Method): (r: bool)
    ensures r <==> exists i :: 0 <= i < |m.methodArgs| && m.methodArgs[i].metadata.varArgs
  {
    AnyVarArgs(m.methodArgs)
  }

  /** `is_module`: the implementation is generated from a module path. */
  function IsModule(m: Method): (r: bool)
    ensures r <==> m.implementation.Generated? && m.implementation.autoImpl.Module?
  {
    match m.implementation
    case Generated(Module(_)) => true
    case _ => false
  }
}
