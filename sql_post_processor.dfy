/**
 * The post-processor of generated SQL (`SQLGenPostProcessor`): it checks a
 * generated statement with the SQL engine (a dry plan, a dry run, or a
 * one-row preview) and files the statement as either a valid or an invalid
 * generation result, classifying the failure. Beside it live the knowledge
 * getters that fall back to default instruction texts and the builders of
 * instruction and chat-history lists.
 *
 * The engine, the reply cleaner and the JSON decoder are foreign code: they
 * are inputs here. An engine call that raises is `Raised`.
 */
module SqlPostProcessor {
  import opened Optional
  import opened Strings
  import Templates

  /** An engine call either answers or raises an exception. */
  datatype Reply<+T> = Answered(value: T) | Raised

  /** `dry_plan`'s answer: whether a plan was produced, and the error message. */
  datatype DryPlanReply = DryPlanReply(ok: bool, errorMessage: string)

  /** The `addition` dictionary of `execute_sql`; a missing key, or one whose value is `None`, is `None`. */
  datatype Addition = Addition(correlationId: Option<string>, errorMessage: Option<string>, errorSql: Option<string>)

  /** `execute_sql`'s answer: success (dry run) or has-data (preview), and the addition. */
  datatype ExecuteReply = ExecuteReply(ok: bool, addition: Addition)

  /**
   * The SQL engine as seen by the post-processor.
   * `dryPlan(sql, dataSource, allowFallback)`;
   * `executeSql(sql, projectId, dryRun)`, always with a limit of one row.
   */
  datatype Engine = Engine(
    dryPlan: (string, string, bool) -> Reply<DryPlanReply>,
    executeSql: (string, Option<string>, bool) -> Reply<ExecuteReply>)

  /** Which engine check a generated statement goes through. */
  datatype CheckMode = DryPlanCheck | DryRunCheck | PreviewCheck

  /** The classified reason of an invalid generation result. */
  datatype InvalidType = TimeOut | DryPlanFailed | DryRunFailed | PreviewEmptyData | PreviewFailed {
    /** The `type` string stored in the invalid record. */
    function Name(): string {
      match this
      case TimeOut => "TIME_OUT"
      case DryPlanFailed => "DRY_PLAN"
      case DryRunFailed => "DRY_RUN"
      case PreviewEmptyData => "PREVIEW_EMPTY_DATA"
      case PreviewFailed => "PREVIEW_FAILED"
    }
  }

  /** `valid_generation_result`. */
  datatype ValidRecord = ValidRecord(sql: string, correlationId: string)

  /** `invalid_generation_result`; `originalSql` is absent for dry-plan failures. */
  datatype InvalidRecord = InvalidRecord(
    sql: string, originalSql: Option<string>, invalidType: InvalidType, error: string, correlationId: string)

  /** The two output dictionaries; `None` is the empty dictionary `{}`. */
  datatype Results = Results(valid: Option<ValidRecord>, invalid: Option<InvalidRecord>)

  /** The engine message prefix that marks a time-out. */
  const TimeoutPrefix: string := "Request timed out"

  /** The dry plan wins; otherwise a dry run unless data preview is allowed. */
  function SelectMode(useDryPlan: bool, allowDataPreview: bool): (m: CheckMode)
    ensures m == DryPlanCheck <==> useDryPlan
    ensures m == DryRunCheck <==> !useDryPlan && !allowDataPreview
    ensures m == PreviewCheck <==> !useDryPlan && allowDataPreview
  {
    if useDryPlan then DryPlanCheck
    else if !allowDataPreview then DryRunCheck
    else PreviewCheck
  }

  /** The failure type for an engine error message under a check mode. */
  function InvalidTypeFor(mode: CheckMode, errorMessage: string): (t: InvalidType)
    ensures t == TimeOut <==> StartsWith(errorMessage, TimeoutPrefix)
    ensures t == DryPlanFailed <==> mode == DryPlanCheck && !StartsWith(errorMessage, TimeoutPrefix)
    ensures t == DryRunFailed <==> mode == DryRunCheck && !StartsWith(errorMessage, TimeoutPrefix)
    ensures t == PreviewEmptyData <==> mode == PreviewCheck && errorMessage == ""
    ensures t == PreviewFailed <==> mode == PreviewCheck && errorMessage != "" && !StartsWith(errorMessage, TimeoutPrefix)
  {
    if StartsWith(errorMessage, TimeoutPrefix) then TimeOut
    else
      match mode
      case DryPlanCheck => DryPlanFailed
      case DryRunCheck => DryRunFailed
      case PreviewCheck => if errorMessage == "" then PreviewEmptyData else PreviewFailed
  }

  /** `_classify_generation_result`: run the selected engine check and file the statement. */
  function ClassifyGenerationResult(
    sql: string, projectId: Option<string>, useDryPlan: bool, allowDryPlanFallback: bool,
    dataSource: string, allowDataPreview: bool, engine: Engine): (r: Reply<Results>)
    // exactly one of the two records is filled
    ensures r.Answered? ==> (r.value.valid.Some? <==> r.value.invalid.None?)
    // a valid record carries the generated statement unchanged
    ensures r.Answered? && r.value.valid.Some? ==> r.value.valid.value.sql == sql
    // the failure type agrees with the record's own error message
    ensures r.Answered? && r.value.invalid.Some? ==>
      var inv := r.value.invalid.value;
      inv.invalidType == InvalidTypeFor(SelectMode(useDryPlan, allowDataPreview), inv.error)
    // only dry-run and preview failures record the original statement
    ensures r.Answered? && r.value.invalid.Some? ==>
      r.value.invalid.value.originalSql == (if useDryPlan then None else Some(sql))
    // a dry plan keeps the generated statement and never has a correlation id
    ensures r.Answered? && useDryPlan ==>
      (r.value.valid.Some? ==> r.value.valid.value.correlationId == "") &&
      (r.value.invalid.Some? ==> r.value.invalid.value.sql == sql && r.value.invalid.value.correlationId == "")
    // a dry plan: raises iff the engine raises, valid iff a plan was produced, else its error message
    ensures useDryPlan ==>
      var reply := engine.dryPlan(sql, dataSource, allowDryPlanFallback);
      && (r.Raised? <==> reply.Raised?)
      && (r.Answered? ==> (r.value.valid.Some? <==> reply.value.ok))
      && (r.Answered? && r.value.invalid.Some? ==> r.value.invalid.value.error == reply.value.errorMessage)
    // a dry run or a preview: raises iff the engine raises, valid iff it succeeds, and the addition fills the record
    ensures !useDryPlan ==>
      var reply := engine.executeSql(sql, projectId, !allowDataPreview);
      && (r.Raised? <==> reply.Raised?)
      && (r.Answered? ==> (r.value.valid.Some? <==> reply.value.ok))
      && (r.Answered? && r.value.valid.Some? ==>
            r.value.valid.value.correlationId == reply.value.addition.correlationId.GetOr(""))
      && (r.Answered? && r.value.invalid.Some? ==>
            var addition := reply.value.addition;
            && r.value.invalid.value.sql == addition.errorSql.GetOr(sql)
            && r.value.invalid.value.error == addition.errorMessage.GetOr("")
            && r.value.invalid.value.correlationId == addition.correlationId.GetOr(""))
  {
    match SelectMode(useDryPlan, allowDataPreview)
    case DryPlanCheck =>
      (match engine.dryPlan(sql, dataSource, allowDryPlanFallback)
       case Raised => Raised
       case Answered(reply) =>
         if reply.ok then Answered(Results(Some(ValidRecord(sql, "")), None))
         else
           var kind := InvalidTypeFor(DryPlanCheck, reply.errorMessage);
           Answered(Results(None, Some(InvalidRecord(sql, None, kind, reply.errorMessage, "")))))
    case mode =>
      match engine.executeSql(sql, projectId, mode == DryRunCheck)
      case Raised => Raised
      case Answered(reply) =>
        var correlationId := reply.addition.correlationId.GetOr("");
        if reply.ok then Answered(Results(Some(ValidRecord(sql, correlationId)), None))
        else
          var message := reply.addition.errorMessage.GetOr("");
          var recorded := reply.addition.errorSql.GetOr(sql);
          Answered(Results(None, Some(InvalidRecord(recorded, Some(sql), InvalidTypeFor(mode, message), message, correlationId))))
  }

  /**
   * The statement to classify: the cleaned first reply, or, when that looks
   * like a JSON object, its `sql` field. `None` when `replies` is empty or
   * the JSON cannot be decoded or has no `sql` field (the exception path).
   */
  function GeneratedSql(replies: seq<string>, clean: string -> string, decodeSqlField: string -> Option<string>): (sql: Option<string>)
    // `replies[0]` raises on no reply
    ensures replies == [] ==> sql.None?
    // a cleaned reply that looks like a JSON object is read for its `sql` field; any other is the SQL itself
    ensures replies != [] && StartsWith(clean(replies[0]), "{") ==> sql == decodeSqlField(clean(replies[0]))
    ensures replies != [] && !StartsWith(clean(replies[0]), "{") ==> sql == Some(clean(replies[0]))
  {
    if replies == [] then None
    else
      var cleaned := clean(replies[0]);
      if StartsWith(cleaned, "{") then decodeSqlField(cleaned) else Some(cleaned)
  }

  /** `SQLGenPostProcessor.run`: any exception yields two empty results. */
  function Run(
    replies: seq<string>, clean: string -> string, decodeSqlField: string -> Option<string>,
    projectId: Option<string>, useDryPlan: bool, allowDryPlanFallback: bool,
    dataSource: string, allowDataPreview: bool, engine: Engine): (r: Results)
    ensures r.valid.None? || r.invalid.None?
    ensures r.valid.Some? || r.invalid.Some? <==>
      var sql := GeneratedSql(replies, clean, decodeSqlField);
      sql.Some? && ClassifyGenerationResult(sql.value, projectId, useDryPlan, allowDryPlanFallback, dataSource, allowDataPreview, engine).Answered?
    ensures replies == [] ==> r == Results(None, None)
    // the records are exactly the classification's, and both are empty on any exception
    ensures var sql := GeneratedSql(replies, clean, decodeSqlField);
      var c := if sql.Some? then ClassifyGenerationResult(sql.value, projectId, useDryPlan, allowDryPlanFallback, dataSource, allowDataPreview, engine) else Raised;
      r == if c.Answered? then c.value else Results(None, None)
  {
    match GeneratedSql(replies, clean, decodeSqlField)
    case None => Results(None, None)
    case Some(sql) =>
      match ClassifyGenerationResult(sql, projectId, useDryPlan, allowDryPlanFallback, dataSource, allowDataPreview, engine)
      case Raised => Results(None, None)
      case Answered(results) => results
  }

  /** A reply that is a JSON object is classified by its `sql` field, any other by itself. */
  lemma JsonReplyUsesSqlField(
    reply: string, clean: string -> string, decodeSqlField: string -> Option<string>,
    projectId: Option<string>, useDryPlan: bool, allowDryPlanFallback: bool,
    dataSource: string, allowDataPreview: bool, engine: Engine)
    ensures var r := Run([reply], clean, decodeSqlField, projectId, useDryPlan, allowDryPlanFallback, dataSource, allowDataPreview, engine);
      var sql := if StartsWith(clean(reply), "{") then decodeSqlField(clean(reply)) else Some(clean(reply));
      && (sql.None? ==> r == Results(None, None))
      && (sql.Some? && r.valid.Some? ==> r.valid.value.sql == sql.value)
      && (sql.Some? && r.invalid.Some? && !useDryPlan ==> r.invalid.value.originalSql == sql)
  {
  }

  /** Only the engine check that the mode selects is consulted, with the dry-run flag set exactly for a dry run. */
  lemma OnlySelectedCheckConsulted(
    sql: string, projectId: Option<string>, useDryPlan: bool, allowDryPlanFallback: bool,
    dataSource: string, allowDataPreview: bool, e1: Engine, e2: Engine)
    requires useDryPlan ==> e1.dryPlan(sql, dataSource, allowDryPlanFallback) == e2.dryPlan(sql, dataSource, allowDryPlanFallback)
    requires !useDryPlan ==> e1.executeSql(sql, projectId, !allowDataPreview) == e2.executeSql(sql, projectId, !allowDataPreview)
    ensures ClassifyGenerationResult(sql, projectId, useDryPlan, allowDryPlanFallback, dataSource, allowDataPreview, e1)
         == ClassifyGenerationResult(sql, projectId, useDryPlan, allowDryPlanFallback, dataSource, allowDataPreview, e2)
  {
  }

  /** In a preview, no rows and no message is "empty data"; a message that is not a time-out is "preview failed". */
  lemma PreviewFailureKinds(
    sql: string, projectId: Option<string>, allowDryPlanFallback: bool, dataSource: string, engine: Engine)
    requires engine.executeSql(sql, projectId, false).Answered?
    requires !engine.executeSql(sql, projectId, false).value.ok
    ensures var r := ClassifyGenerationResult(sql, projectId, false, allowDryPlanFallback, dataSource, true, engine);
      var addition := engine.executeSql(sql, projectId, false).value.addition;
      var message := addition.errorMessage.GetOr("");
      && r.Answered? && r.value.invalid.Some?
      && r.value.invalid.value.error == message
      && r.value.invalid.value.sql == addition.errorSql.GetOr(sql)
      && r.value.invalid.value.correlationId == addition.correlationId.GetOr("")
      && (r.value.invalid.value.invalidType == PreviewEmptyData <==> message == "")
      && (r.value.invalid.value.invalidType == PreviewFailed <==> message != "" && !StartsWith(message, TimeoutPrefix))
  {
  }

  /** The engine of the dry-run unit test: every `execute_sql` fails with an `error_sql`. */
  function FailingDryRunEngine(): Engine {
    Engine(
      (sql: string, dataSource: string, allowFallback: bool) => Raised,
      (sql: string, projectId: Option<string>, dryRun: bool) =>
        Answered(ExecuteReply(false, Addition(Some("cid-123"), Some("boom"), Some("SELECT 1")))))
  }

  /**
   * With the unit test's engine, the invalid record's `sql` is the engine's
   * `error_sql` ("SELECT 1"), not the generated statement the test expects,
   * and the record has no `engine_sql` field.
   */
  lemma DryRunFailureRecordsEngineSql(raw: string, clean: string -> string, decodeSqlField: string -> Option<string>)
    requires !StartsWith(clean(raw), "{")
    ensures var r := Run([raw], clean, decodeSqlField, None, false, true, "", false, FailingDryRunEngine());
      && r.valid.None? && r.invalid.Some?
      && r.invalid.value == InvalidRecord("SELECT 1", Some(clean(raw)), DryRunFailed, "boom", "cid-123")
  {
    assert !StartsWith("boom", TimeoutPrefix);
  }

  // ---------------------------------------------------------------------
  // Knowledge getters

  /** The instruction attributes a SQL knowledge record may carry; `None` when unset. */
  datatype SqlKnowledge = SqlKnowledge(
    textToSqlRule: Option<string>, calculatedFieldInstructions: Option<string>,
    metricInstructions: Option<string>, jsonFieldInstructions: Option<string>)

  /** The attribute names `_extract_from_sql_knowledge` is called with. */
  datatype KnowledgeAttribute = TextToSqlRule | CalculatedFieldInstructions | MetricInstructions | JsonFieldInstructions

  /** `getattr(sql_knowledge, attribute_name, "")`. */
  function Attribute(k: SqlKnowledge, a: KnowledgeAttribute): Option<string> {
    match a
    case TextToSqlRule => k.textToSqlRule
    case CalculatedFieldInstructions => k.calculatedFieldInstructions
    case MetricInstructions => k.metricInstructions
    case JsonFieldInstructions => k.jsonFieldInstructions
  }

  /** The default instruction texts, loaded from the template files at import time. */
  datatype DefaultInstructions = DefaultInstructions(
    textToSqlRules: string, calculatedFieldInstructions: string,
    metricInstructions: string, jsonFieldInstructions: string)

  /** The attribute when it holds some non-whitespace text, otherwise the default. */
  function ExtractFromSqlKnowledge(k: Option<SqlKnowledge>, a: KnowledgeAttribute, default: string): (r: string)
    ensures k.None? ==> r == default
    ensures k.Some? && Attribute(k.value, a).Some? && !IsBlank(Attribute(k.value, a).value) ==>
      r == Attribute(k.value, a).value
    ensures k.Some? && (Attribute(k.value, a).None? || IsBlank(Attribute(k.value, a).value)) ==> r == default
  {
    if k.None? then default
    else
      match Attribute(k.value, a)
      case None => default
      case Some(value) =>
        TrimEmptyIffBlank(value);
        if value != "" && Trim(value) != "" then value else default
  }

  /** `get_text_to_sql_rules`. */
  function GetTextToSqlRules(k: Option<SqlKnowledge>, defaults: DefaultInstructions): (r: string)
    ensures r == ExtractFromSqlKnowledge(k, TextToSqlRule, defaults.textToSqlRules)
  {
    if k.Some? then ExtractFromSqlKnowledge(k, TextToSqlRule, defaults.textToSqlRules) else defaults.textToSqlRules
  }

  /** `get_calculated_field_instructions`. */
  function GetCalculatedFieldInstructions(k: Option<SqlKnowledge>, defaults: DefaultInstructions): (r: string)
    ensures r == ExtractFromSqlKnowledge(k, CalculatedFieldInstructions, defaults.calculatedFieldInstructions)
  {
    if k.Some? then ExtractFromSqlKnowledge(k, CalculatedFieldInstructions, defaults.calculatedFieldInstructions)
    else defaults.calculatedFieldInstructions
  }

  /** `get_metric_instructions`. */
  function GetMetricInstructions(k: Option<SqlKnowledge>, defaults: DefaultInstructions): (r: string)
    ensures r == ExtractFromSqlKnowledge(k, MetricInstructions, defaults.metricInstructions)
  {
    if k.Some? then ExtractFromSqlKnowledge(k, MetricInstructions, defaults.metricInstructions) else defaults.metricInstructions
  }

  /** `get_json_field_instructions`. */
  function GetJsonFieldInstructions(k: Option<SqlKnowledge>, defaults: DefaultInstructions): (r: string)
    ensures r == ExtractFromSqlKnowledge(k, JsonFieldInstructions, defaults.jsonFieldInstructions)
  {
    if k.Some? then ExtractFromSqlKnowledge(k, JsonFieldInstructions, defaults.jsonFieldInstructions)
    else defaults.jsonFieldInstructions
  }

  /** `get_sql_generation_system_prompt`: the prompt template with the rules filled in. */
  function SqlGenerationSystemPrompt(k: Option<SqlKnowledge>, defaults: DefaultInstructions, template: string): (prompt: string)
    // `render_template` with the one key `text_to_sql_rules` and the resolved rules
    ensures prompt == Templates.Rendered(template, [("text_to_sql_rules", GetTextToSqlRules(k, defaults))])
    // which is a single `str.replace` of every placeholder by the rules
    ensures prompt == ReplaceAll(template, Templates.Marker("text_to_sql_rules"), GetTextToSqlRules(k, defaults))
    // a template without the placeholder is returned as it is
    ensures !Occurs(template, Templates.Marker("text_to_sql_rules")) ==> prompt == template
  {
    var reps := [("text_to_sql_rules", GetTextToSqlRules(k, defaults))];
    if Occurs(template, Templates.Marker("text_to_sql_rules")) then Templates.Rendered(template, reps)
    else
      Templates.RenderedWithoutMarkers(template, reps);
      Templates.Rendered(template, reps)
  }

  /**
   * The rules land where the template's first `{{text_to_sql_rules}}`
   * placeholder was; the text around it is kept as long as it holds no
   * further placeholder, whatever other braces it contains.
   */
  lemma SystemPromptCarriesRules(k: Option<SqlKnowledge>, defaults: DefaultInstructions, before: string, after: string)
    requires var m := Templates.Marker("text_to_sql_rules");
      forall i :: 0 <= i < |before| ==> !OccursAt(before + m + after, m, i)
    requires !Occurs(before, Templates.Marker("text_to_sql_rules"))
    requires !Occurs(after, Templates.Marker("text_to_sql_rules"))
    ensures SqlGenerationSystemPrompt(k, defaults, before + Templates.Marker("text_to_sql_rules") + after)
         == before + GetTextToSqlRules(k, defaults) + after
  {
    var m, rules := Templates.Marker("text_to_sql_rules"), GetTextToSqlRules(k, defaults);
    ReplaceFirstOccurrence(before, m, after, rules);
    ReplaceAbsent(before, m, rules);
    ReplaceAbsent(after, m, rules);
  }

  // ---------------------------------------------------------------------
  // List builders

  /** An instruction dictionary; its `instruction` key may be missing. */
  datatype Instruction = Instruction(instruction: Option<string>)

  /** `construct_instructions`: one entry per instruction, in order; none for a missing list. */
  function ConstructInstructions(instructions: Option<seq<Instruction>>): (r: seq<Option<string>>)
    ensures instructions.None? ==> r == []
    ensures instructions.Some? ==> |r| == |instructions.value|
    ensures instructions.Some? ==> forall i :: 0 <= i < |r| ==> r[i] == instructions.value[i].instruction
  {
    match instructions
    case None => []
    case Some(xs) => if xs == [] then [] else seq(|xs|, i requires 0 <= i < |xs| => xs[i].instruction)
  }

  /** One earlier question of the conversation with the SQL answered for it. */
  datatype AskHistory = AskHistory(question: string, sql: string)

  /** A chat message with its role. */
  datatype ChatMessage = FromUser(content: string) | FromAssistant(content: string)

  /** `construct_ask_history_messages`: a user and an assistant message per history entry, in order. */
  method ConstructAskHistoryMessages(histories: seq<AskHistory>) returns (messages: seq<ChatMessage>)
    ensures |messages| == 2 * |histories|
    ensures forall i :: 0 <= i < |histories| ==>
      messages[2 * i] == FromUser(histories[i].question) && messages[2 * i + 1] == FromAssistant(histories[i].sql)
  {
    messages := [];
    for n := 0 to |histories|
      invariant |messages| == 2 * n
      invariant forall i :: 0 <= i < n ==>
        messages[2 * i] == FromUser(histories[i].question) && messages[2 * i + 1] == FromAssistant(histories[i].sql)
    {
      messages := messages + [FromUser(histories[n].question)];
      messages := messages + [FromAssistant(histories[n].sql)];
    }
  }
}
