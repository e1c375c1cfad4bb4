/**
 * The UI server's API errors: the error codes, the long and short message
 * tables, the construction of a GraphQL error from a code and options, and
 * the Apollo handler that reshapes errors before they are sent.
 *
 * The message tables' texts are opaque here: a catalogued text is named by
 * its table and code, and every catalogued text is non-empty.
 */
module ApiErrors {
  import opened Optional

  /** The general error codes. */
  datatype ErrorCode =
    | InternalServerError
    | NoRelevantData
    | NoRelevantSql
    | ResourceNotFound
    | MdlParseError
    | NoChart
    | AiServiceUndefinedError
    | IbisServerError
    | ConnectionError
    | InitSqlError
    | SessionPropsError
    | ConnectionRefused
    | DuplicatedFieldName
    | InvalidExpression
    | InvalidCalculatedField
    | InvalidViewCreation
    | DryRunError
    | DryPlanError
    | DeploySqlPairError
    | GenerateQuestionsError
    | InvalidSqlError
    | WrenEngineError
    | IdentifiedAsGeneral
    | IdentifiedAsMisleadingQuery
    | DeployTimeoutError
    | NonSqlQuery
    | NoDeploymentFound
    | FailedToGenerateVegaSchema
    | PollingTimeout
    | SqlExecutionError
  {
    /** The code's string value, as sent to clients. */
    function Value(): string {
      match this
      case InternalServerError => "INTERNAL_SERVER_ERROR"
      case NoRelevantData => "NO_RELEVANT_DATA"
      case NoRelevantSql => "NO_RELEVANT_SQL"
      case ResourceNotFound => "RESOURCE_NOT_FOUND"
      case MdlParseError => "MDL_PARSE_ERROR"
      case NoChart => "NO_CHART"
      case AiServiceUndefinedError => "OTHERS"
      case IbisServerError => "IBIS_SERVER_ERROR"
      case ConnectionError => "CONNECTION_ERROR"
      case InitSqlError => "INIT_SQL_ERROR"
      case SessionPropsError => "SESSION_PROPS_ERROR"
      case ConnectionRefused => "CONNECTION_REFUSED"
      case DuplicatedFieldName => "DUPLICATED_FIELD_NAME"
      case InvalidExpression => "INVALID_EXPRESSION"
      case InvalidCalculatedField => "INVALID_CALCULATED_FIELD"
      case InvalidViewCreation => "INVALID_VIEW_CREATION"
      case DryRunError => "DRY_RUN_ERROR"
      case DryPlanError => "DRY_PLAN_ERROR"
      case DeploySqlPairError => "DEPLOY_SQL_PAIR_ERROR"
      case GenerateQuestionsError => "GENERATE_QUESTIONS_ERROR"
      case InvalidSqlError => "INVALID_SQL_ERROR"
      case WrenEngineError => "WREN_ENGINE_ERROR"
      case IdentifiedAsGeneral => "IDENTIED_AS_GENERAL"
      case IdentifiedAsMisleadingQuery => "IDENTIED_AS_MISLEADING_QUERY"
      case DeployTimeoutError => "DEPLOY_TIMEOUT_ERROR"
      case NonSqlQuery => "NON_SQL_QUERY"
      case NoDeploymentFound => "NO_DEPLOYMENT_FOUND"
      case FailedToGenerateVegaSchema => "FAILED_TO_GENERATE_VEGA_SCHEMA"
      case PollingTimeout => "POLLING_TIMEOUT"
      case SqlExecutionError => "SQL_EXECUTION_ERROR"
    }
  }

  /** No code's value is empty, so no code is mistaken for a missing one. */
  lemma ValueNonEmpty(c: ErrorCode)
    ensures c.Value() != ""
  {
    match c
    case InternalServerError =>
    case NoRelevantData =>
    case NoRelevantSql =>
    case ResourceNotFound =>
    case MdlParseError =>
    case NoChart =>
    case AiServiceUndefinedError =>
    case IbisServerError =>
    case ConnectionError =>
    case InitSqlError =>
    case SessionPropsError =>
    case ConnectionRefused =>
    case DuplicatedFieldName =>
    case InvalidExpression =>
    case InvalidCalculatedField =>
    case InvalidViewCreation =>
    case DryRunError =>
    case DryPlanError =>
    case DeploySqlPairError =>
    case GenerateQuestionsError =>
    case InvalidSqlError =>
    case WrenEngineError =>
    case IdentifiedAsGeneral =>
    case IdentifiedAsMisleadingQuery =>
    case DeployTimeoutError =>
    case NonSqlQuery =>
    case NoDeploymentFound =>
    case FailedToGenerateVegaSchema =>
    case PollingTimeout =>
    case SqlExecutionError =>
  }

  /**
   * A code string as it travels in an error's extensions: the value of a
   * known code, or a string that is the value of no code.
   */
  datatype CodeValue = Known(code: ErrorCode) | Unlisted(value: string)
  {
    /** The string itself. */
    function Chars(): string {
      match this
      case Known(c) => c.Value()
      case Unlisted(s) => s
    }
  }

  /** The code whose value a string is, if any. */
  function CodeNamed(s: string): (r: Option<ErrorCode>)
    ensures r.Some? ==> r.value.Value() == s
  {
    var candidate := CodeCandidate(s);
    if candidate.Some? && candidate.value.Value() == s then candidate else None
  }

  /** The only code whose value `s` can be, picked by its first character and then by the whole string. */
  function CodeCandidate(s: string): Option<ErrorCode> {
    if s == [] then None
    else
      match s[0]
      case 'I' => CodeNamedI(s)
      case 'N' => CodeNamedN(s)
      case 'C' => CodeNamedC(s)
      case 'S' => CodeNamedS(s)
      case 'D' => CodeNamedD(s)
      case _ => CodeNamedOther(s)
  }

  /** The code, among those whose value starts with `I`, that `s` is the value of. */
  function CodeNamedI(s: string): Option<ErrorCode> {
    match s
    case "INTERNAL_SERVER_ERROR" => Some(InternalServerError)
    case "IBIS_SERVER_ERROR" => Some(IbisServerError)
    case "INIT_SQL_ERROR" => Some(InitSqlError)
    case "INVALID_EXPRESSION" => Some(InvalidExpression)
    case "INVALID_CALCULATED_FIELD" => Some(InvalidCalculatedField)
    case "INVALID_VIEW_CREATION" => Some(InvalidViewCreation)
    case "INVALID_SQL_ERROR" => Some(InvalidSqlError)
    case "IDENTIED_AS_GENERAL" => Some(IdentifiedAsGeneral)
    case "IDENTIED_AS_MISLEADING_QUERY" => Some(IdentifiedAsMisleadingQuery)
    case _ => None
  }

  /** The code, among those whose value starts with `N`, that `s` is the value of. */
  function CodeNamedN(s: string): Option<ErrorCode> {
    match s
    case "NO_RELEVANT_DATA" => Some(NoRelevantData)
    case "NO_RELEVANT_SQL" => Some(NoRelevantSql)
    case "NO_CHART" => Some(NoChart)
    case "NON_SQL_QUERY" => Some(NonSqlQuery)
    case "NO_DEPLOYMENT_FOUND" => Some(NoDeploymentFound)
    case _ => None
  }

  /** The code, among those whose value starts with `C`, that `s` is the value of. */
  function CodeNamedC(s: string): Option<ErrorCode> {
    match s
    case "CONNECTION_ERROR" => Some(ConnectionError)
    case "CONNECTION_REFUSED" => Some(ConnectionRefused)
    case _ => None
  }

  /** The code, among those whose value starts with `S`, that `s` is the value of. */
  function CodeNamedS(s: string): Option<ErrorCode> {
    match s
    case "SESSION_PROPS_ERROR" => Some(SessionPropsError)
    case "SQL_EXECUTION_ERROR" => Some(SqlExecutionError)
    case _ => None
  }

  /** The code, among those whose value starts with `D`, that `s` is the value of. */
  function CodeNamedD(s: string): Option<ErrorCode> {
    match s
    case "DUPLICATED_FIELD_NAME" => Some(DuplicatedFieldName)
    case "DRY_RUN_ERROR" => Some(DryRunError)
    case "DRY_PLAN_ERROR" => Some(DryPlanError)
    case "DEPLOY_SQL_PAIR_ERROR" => Some(DeploySqlPairError)
    case "DEPLOY_TIMEOUT_ERROR" => Some(DeployTimeoutError)
    case _ => None
  }
  /** The code, among those whose value is alone in its first character, that `s` is the value of. */
  function CodeNamedOther(s: string): Option<ErrorCode> {
    match s
    case "RESOURCE_NOT_FOUND" => Some(ResourceNotFound)
    case "MDL_PARSE_ERROR" => Some(MdlParseError)
    case "OTHERS" => Some(AiServiceUndefinedError)
    case "GENERATE_QUESTIONS_ERROR" => Some(GenerateQuestionsError)
    case "WREN_ENGINE_ERROR" => Some(WrenEngineError)
    case "FAILED_TO_GENERATE_VEGA_SCHEMA" => Some(FailedToGenerateVegaSchema)
    case "POLLING_TIMEOUT" => Some(PollingTimeout)
    case _ => None
  }

  /** The codes starting with `I` read back as themselves. */
  lemma CodeNamedValueI(c: ErrorCode)
    ensures c in {InternalServerError, IbisServerError, InitSqlError, InvalidExpression, InvalidCalculatedField, InvalidViewCreation, InvalidSqlError, IdentifiedAsGeneral, IdentifiedAsMisleadingQuery} ==> CodeCandidate(c.Value()) == Some(c)
  {
    match c
    case InternalServerError =>
    case IbisServerError =>
    case InitSqlError =>
    case InvalidExpression =>
    case InvalidCalculatedField =>
    case InvalidViewCreation =>
    case InvalidSqlError =>
    case IdentifiedAsGeneral =>
    case IdentifiedAsMisleadingQuery =>
    case _ =>
  }

  /** The codes starting with `N` read back as themselves. */
  lemma CodeNamedValueN(c: ErrorCode)
    ensures c in {NoRelevantData, NoRelevantSql, NoChart, NonSqlQuery, NoDeploymentFound} ==> CodeCandidate(c.Value()) == Some(c)
  {
    match c
    case NoRelevantData =>
    case NoRelevantSql =>
    case NoChart =>
    case NonSqlQuery =>
    case NoDeploymentFound =>
    case _ =>
  }

  /** The codes alone in their first character read back as themselves. */
  lemma CodeNamedValueOther(c: ErrorCode)
    ensures c in {ResourceNotFound, MdlParseError, AiServiceUndefinedError, GenerateQuestionsError, WrenEngineError, FailedToGenerateVegaSchema, PollingTimeout} ==> CodeCandidate(c.Value()) == Some(c)
  {
    match c
    case ResourceNotFound =>
    case MdlParseError =>
    case AiServiceUndefinedError =>
    case GenerateQuestionsError =>
    case WrenEngineError =>
    case FailedToGenerateVegaSchema =>
    case PollingTimeout =>
    case _ =>
  }

  /** The codes starting with `C` read back as themselves. */
  lemma CodeNamedValueC(c: ErrorCode)
    ensures c in {ConnectionError, ConnectionRefused} ==> CodeCandidate(c.Value()) == Some(c)
  {
    match c
    case ConnectionError =>
    case ConnectionRefused =>
    case _ =>
  }

  /** The codes starting with `S` read back as themselves. */
  lemma CodeNamedValueS(c: ErrorCode)
    ensures c in {SessionPropsError, SqlExecutionError} ==> CodeCandidate(c.Value()) == Some(c)
  {
    match c
    case SessionPropsError =>
    case SqlExecutionError =>
    case _ =>
  }

  /** The codes starting with `D` read back as themselves. */
  lemma CodeNamedValueD(c: ErrorCode)
    ensures c in {DuplicatedFieldName, DryRunError, DryPlanError, DeploySqlPairError, DeployTimeoutError} ==> CodeCandidate(c.Value()) == Some(c)
  {
    match c
    case DuplicatedFieldName =>
    case DryRunError =>
    case DryPlanError =>
    case DeploySqlPairError =>
    case DeployTimeoutError =>
    case _ =>
  }

  /** Every code's value reads back as that code; so no two codes share a value. */
  lemma CodeNamedValue(c: ErrorCode)
    ensures CodeNamed(c.Value()) == Some(c)
  {
    CodeNamedValueI(c);
    CodeNamedValueN(c);
    CodeNamedValueOther(c);
    CodeNamedValueC(c);
    CodeNamedValueS(c);
    CodeNamedValueD(c);
  }

  /** Two codes with the same value are the same code. */
  lemma ValueInjective(c: ErrorCode, d: ErrorCode)
    requires c.Value() == d.Value()
    ensures c == d
  {
    CodeNamedValue(c);
    CodeNamedValue(d);
  }

  /** A code string as read from an error's extensions: `Known` exactly when it is some code's value. */
  function ReadCode(s: string): (v: CodeString)
    ensures v.Chars() == s
    ensures v.Known? <==> exists c: ErrorCode :: c.Value() == s
  {
    match CodeNamed(s)
    case Some(c) => Known(c)
    case None =>
      forall c: ErrorCode ensures c.Value() != s {
        CodeNamedValue(c);
      }
      Unlisted(s)
  }

  /**
   * A code string as it can occur: `Unlisted` only for a string that is no
   * code's value, so every code's own value is read as `Known`.
   */
  type CodeString = v: CodeValue | v.Unlisted? ==> forall c: ErrorCode :: c.Value() != v.value
    witness Known(InternalServerError)

  // ---------------------------------------------------------------------
  // Message tables

  /** The two message tables. */
  datatype Table = LongMessages | ShortMessages

  /** A message: a text given by the caller, or a table entry (never empty). */
  datatype Text = Literal(chars: string) | Catalogued(table: Table, code: ErrorCode)

  /** JavaScript truthiness of a possibly missing message. */
  predicate Truthy(t: Option<Text>) {
    t.Some? && !(t.value.Literal? && t.value.chars == "")
  }

  /** The codes `errorMessages` has an entry for. */
  const LongMessageCodes: set<ErrorCode> := {
    InternalServerError, NoRelevantData, NoRelevantSql, NoChart, ConnectionError, InitSqlError,
    SessionPropsError, ConnectionRefused, IbisServerError, DuplicatedFieldName, InvalidExpression,
    InvalidCalculatedField, InvalidViewCreation, DryRunError, DryPlanError, DeploySqlPairError,
    GenerateQuestionsError, InvalidSqlError, IdentifiedAsGeneral, IdentifiedAsMisleadingQuery,
    DeployTimeoutError, NonSqlQuery, NoDeploymentFound, FailedToGenerateVegaSchema, PollingTimeout,
    SqlExecutionError
  }

  /** The codes `shortMessages` has an entry for. */
  const ShortMessageCodes: set<ErrorCode> := {
    InternalServerError, NoRelevantData, NoRelevantSql, NoChart, ConnectionError, IbisServerError,
    InitSqlError, SessionPropsError, ConnectionRefused, DuplicatedFieldName, InvalidExpression,
    InvalidCalculatedField, InvalidViewCreation, DryRunError, DryPlanError, DeploySqlPairError,
    GenerateQuestionsError, InvalidSqlError, IdentifiedAsGeneral, IdentifiedAsMisleadingQuery,
    DeployTimeoutError, NonSqlQuery, NoDeploymentFound, FailedToGenerateVegaSchema, PollingTimeout,
    SqlExecutionError
  }

  /** `errorMessages`: one catalogued text per listed code. */
  const ErrorMessages: map<ErrorCode, Text> := map c | c in LongMessageCodes :: Catalogued(LongMessages, c)

  /** `shortMessages`: one catalogued text per listed code. */
  const ShortMessageTable: map<ErrorCode, Text> := map c | c in ShortMessageCodes :: Catalogued(ShortMessages, c)

  /** RESOURCE_NOT_FOUND, MDL_PARSE_ERROR, OTHERS and WREN_ENGINE_ERROR: the codes neither table lists. */
  const UncataloguedCodes: set<ErrorCode> := {ResourceNotFound, MdlParseError, AiServiceUndefinedError, WrenEngineError}

  /** The table `table` names. */
  function Entries(table: Table): map<ErrorCode, Text> {
    match table
    case LongMessages => ErrorMessages
    case ShortMessages => ShortMessageTable
  }

  /** `errorMessages[key]` or `shortMessages[key]`; a string without an entry reads `undefined`. */
  function Lookup(table: Table, key: CodeString): (t: Option<Text>)
    ensures t.Some? <==> key.Known? && key.code in Entries(table)
    ensures t.Some? ==> t.value == Catalogued(table, key.code) && Truthy(t)
  {
    if key.Known? && key.code in Entries(table) then Some(Entries(table)[key.code]) else None
  }

  /** Both tables list every code but the four uncatalogued ones. */
  lemma TablesCoverAllButFour(c: ErrorCode)
    ensures c in ErrorMessages <==> c !in UncataloguedCodes
    ensures c in ShortMessageTable <==> c !in UncataloguedCodes
  {
    match c
    case InternalServerError =>
    case NoRelevantData =>
    case NoRelevantSql =>
    case ResourceNotFound =>
    case MdlParseError =>
    case NoChart =>
    case AiServiceUndefinedError =>
    case IbisServerError =>
    case ConnectionError =>
    case InitSqlError =>
    case SessionPropsError =>
    case ConnectionRefused =>
    case DuplicatedFieldName =>
    case InvalidExpression =>
    case InvalidCalculatedField =>
    case InvalidViewCreation =>
    case DryRunError =>
    case DryPlanError =>
    case DeploySqlPairError =>
    case GenerateQuestionsError =>
    case InvalidSqlError =>
    case WrenEngineError =>
    case IdentifiedAsGeneral =>
    case IdentifiedAsMisleadingQuery =>
    case DeployTimeoutError =>
    case NonSqlQuery =>
    case NoDeploymentFound =>
    case FailedToGenerateVegaSchema =>
    case PollingTimeout =>
    case SqlExecutionError =>
  }

  // ---------------------------------------------------------------------
  // Creating errors

  /** An `Error` object: the part of it that is read or passed along. */
  datatype OriginalError = OriginalError(message: string, name: string)

  /** The options of `create`; `other` is an opaque payload. */
  datatype CreateOptions = CreateOptions(customMessage: Option<string>, originalError: Option<OriginalError>, service: Option<string>, other: Option<string>)

  /** A GraphQL error's extensions, as far as they are set or read here. */
  datatype Extensions = Extensions(
    code: Option<CodeString>,
    message: Option<Text>,
    shortMessage: Option<Text>,
    originalError: Option<OriginalError>,
    service: Option<string>,
    stacktrace: Option<seq<string>>,
    other: Option<string>)

  /** Where in a query an error occurred. */
  datatype Location = Location(line: nat, column: nat)

  /** A `GraphQLError`. */
  datatype GraphQLError = GraphQLError(message: Text, locations: Option<seq<Location>>, path: Option<seq<string>>, extensions: Extensions)

  /** A message from an optional string, as it enters an `||` chain. */
  function LiteralOf(s: Option<string>): Option<Text> {
    if s.Some? then Some(Literal(s.value)) else None
  }

  /** `create`: a GraphQL error for the code (internal by default) with the first non-empty message of the chain. */
  function Create(code: Option<ErrorCode>, options: Option<CreateOptions>): (e: GraphQLError)
    ensures var resolved := if code.Some? then code.value else InternalServerError;
      e.extensions.code == Some(Known(resolved))
    ensures var opts := options.GetOr(CreateOptions(None, None, None, None));
      var resolved := if code.Some? then code.value else InternalServerError;
      var fromError := if opts.originalError.Some? then Some(Literal(opts.originalError.value.message)) else None;
      && (Truthy(LiteralOf(opts.customMessage)) ==> e.message == Literal(opts.customMessage.value))
      && (!Truthy(LiteralOf(opts.customMessage)) && Truthy(fromError) ==> e.message == fromError.value)
      && (!Truthy(LiteralOf(opts.customMessage)) && !Truthy(fromError) ==>
            e.message == (if resolved in ErrorMessages then Catalogued(LongMessages, resolved) else Catalogued(LongMessages, InternalServerError)))
      && e.extensions.originalError == opts.originalError
      && e.extensions.service == opts.service
      && e.extensions.other == opts.other
    ensures e.extensions.message == Some(e.message)
    ensures Truthy(Some(e.message))
    ensures var resolved := if code.Some? then code.value else InternalServerError;
      e.extensions.shortMessage ==
        Some(if resolved in ShortMessageTable then Catalogued(ShortMessages, resolved) else Catalogued(ShortMessages, InternalServerError))
    ensures e.locations.None? && e.path.None? && e.extensions.stacktrace.None?
  {
    var opts := options.GetOr(CreateOptions(None, None, None, None));
    var resolved := if code.Some? then code.value else InternalServerError;
    TablesCoverAllButFour(InternalServerError);
    var fromError := if opts.originalError.Some? then Some(Literal(opts.originalError.value.message)) else None;
    var message :=
      if Truthy(LiteralOf(opts.customMessage)) then Literal(opts.customMessage.value)
      else if Truthy(fromError) then fromError.value
      else if Truthy(Lookup(LongMessages, Known(resolved))) then ErrorMessages[resolved]
      else ErrorMessages[InternalServerError];
    var shortMessage :=
      if Truthy(Lookup(ShortMessages, Known(resolved))) then ShortMessageTable[resolved]
      else ShortMessageTable[InternalServerError];
    GraphQLError(message, None, None, Extensions(Some(Known(resolved)), Some(message), Some(shortMessage), opts.originalError, opts.service, None, opts.other))
  }

  /** Leaving out the code is the same as asking for an internal server error. */
  lemma NoCodeMeansInternal(options: Option<CreateOptions>)
    ensures Create(None, options) == Create(Some(InternalServerError), options)
  {
  }

  /** A code without table entries gets the internal-error texts, unless the caller gave a message. */
  lemma UncataloguedCodeFallsBack(c: ErrorCode, options: Option<CreateOptions>)
    requires c in UncataloguedCodes
    ensures Create(Some(c), options).extensions.shortMessage == Some(Catalogued(ShortMessages, InternalServerError))
    ensures options.None? ==> Create(Some(c), options).message == Catalogued(LongMessages, InternalServerError)
  {
    TablesCoverAllButFour(c);
  }

  /** A listed code without a caller message gets its own texts. */
  lemma CataloguedCodeUsesItsEntries(c: ErrorCode)
    requires c !in UncataloguedCodes
    ensures Create(Some(c), None).message == Catalogued(LongMessages, c)
    ensures Create(Some(c), None).extensions.shortMessage == Some(Catalogued(ShortMessages, c))
  {
    TablesCoverAllButFour(c);
  }

  /** An empty custom message falls through to the original error's message. */
  lemma EmptyCustomMessageFallsThrough(code: Option<ErrorCode>, original: OriginalError, service: Option<string>, other: Option<string>)
    requires original.message != ""
    ensures Create(code, Some(CreateOptions(Some(""), Some(original), service, other))).message == Literal(original.message)
  {
  }

  // ---------------------------------------------------------------------
  // The Apollo error handler

  /** Anything thrown: a GraphQL error or some other error value. */
  datatype Thrown = GraphQL(error: GraphQLError) | OtherError(original: OriginalError)

  /** The handler's extensions: only these five keys. */
  datatype FormattedExtensions = FormattedExtensions(code: CodeString, message: Text, shortMessage: Option<Text>, stacktrace: Option<seq<string>>, other: Option<string>)

  /** What the handler returns. */
  datatype Handled =
    | Formatted(locations: Option<seq<Location>>, path: Option<seq<string>>, message: Text, extensions: FormattedExtensions)
    | Passthrough(thrown: Thrown)

  /** `defaultApolloErrorHandler`: keeps only the fields clients need, with the code defaulted and its short message looked up. */
  function HandleError(thrown: Thrown): (h: Handled)
    ensures thrown.OtherError? <==> h == Passthrough(thrown)
    ensures thrown.GraphQL? ==>
      var e := thrown.error;
      && h.Formatted?
      && h.locations == e.locations && h.path == e.path && h.message == e.message
      && h.extensions.message == e.message
      && h.extensions.code == (if e.extensions.code.None? || e.extensions.code.value.Chars() == "" then Known(InternalServerError) else e.extensions.code.value)
      && (h.extensions.shortMessage.Some? <==> h.extensions.code.Known? && h.extensions.code.code !in UncataloguedCodes)
      && (h.extensions.shortMessage.Some? ==> h.extensions.shortMessage.value == Catalogued(ShortMessages, h.extensions.code.code))
      && h.extensions.stacktrace == e.extensions.stacktrace
      && h.extensions.other == e.extensions.other
  {
    match thrown
    case OtherError(_) => Passthrough(thrown)
    case GraphQL(e) =>
      var code: CodeString := if e.extensions.code.Some? && e.extensions.code.value.Chars() != "" then e.extensions.code.value else Known(InternalServerError);
      TablesCoverAllButFour(if code.Known? then code.code else InternalServerError);
      Formatted(e.locations, e.path, e.message, FormattedExtensions(code, e.message, Lookup(ShortMessages, code), e.extensions.stacktrace, e.extensions.other))
  }

  /**
   * Handling an error made by `create` keeps its code, message and payload;
   * the short message survives for listed codes, and is dropped (not
   * replaced by the internal-error text) for the four uncatalogued ones.
   */
  lemma HandleCreated(code: Option<ErrorCode>, options: Option<CreateOptions>)
    ensures var e := Create(code, options);
      var h := HandleError(GraphQL(e));
      var resolved := if code.Some? then code.value else InternalServerError;
      && h.Formatted?
      && h.extensions.code == Known(resolved)
      && h.message == e.message && h.extensions.message == e.message
      && h.extensions.other == e.extensions.other
      && (resolved in UncataloguedCodes ==> h.extensions.shortMessage.None?)
      && (resolved !in UncataloguedCodes ==> h.extensions.shortMessage == e.extensions.shortMessage)
  {
    var resolved := if code.Some? then code.value else InternalServerError;
    ValueNonEmpty(resolved);
    TablesCoverAllButFour(resolved);
  }

  /**
   * A GraphQL error whose code string is `s`: the handler keeps `s`, and
   * finds a short message exactly when `s` is the value of a catalogued code.
   */
  lemma HandleCodeString(e: GraphQLError, s: string)
    requires e.extensions.code == Some(ReadCode(s)) && s != ""
    ensures var h := HandleError(GraphQL(e));
      && h.Formatted? && h.extensions.code.Chars() == s
      && (forall c: ErrorCode :: c.Value() == s ==> (h.extensions.shortMessage == Some(Catalogued(ShortMessages, c)) <==> c !in UncataloguedCodes))
      && ((forall c: ErrorCode :: c.Value() != s) ==> h.extensions.shortMessage.None?)
  {
    var v := ReadCode(s);
    forall c: ErrorCode | c.Value() == s
      ensures v == Known(c)
    {
      assert v.Known?;
      ValueInjective(c, v.code);
    }
  }
}
