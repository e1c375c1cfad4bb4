# WrenAI decision logic, modelled in Dafny

WrenAI answers questions about a database in natural language. Its AI
service turns a question into SQL with a language model and checks that SQL
against the Wren engine. Its UI server talks to a domain-information
service and reports errors to the browser. This project models the
deterministic logic around those steps and proves what it promises:

- **SQL post-processing** (`SqlPostProcessor`). The generated SQL is
  classified as valid or invalid by a dry plan, a dry run or a limit-1
  preview. The module also covers the knowledge getters with their
  defaults, the system prompt, and the instruction and ask-history list
  builders.
- **Connection strings** (`ConnectionString`). An MS SQL connection string
  is parsed into settings. Host and port are extracted, and the connection
  info is built from the domain information.
- **Relationship recommendation** (`RelationshipRecommendation`). Models
  are cleaned before prompting, and recommended relationships are
  validated against the model columns.
- **Intent classification** (`IntentClassification`). This covers the
  embedded query text and the two retrieval filters. It also covers the
  merge of schema documents into one DDL string per table, and the
  fallback when the reply cannot be read.
- **API errors** (`ApiErrors`). This covers the error codes, the message
  tables, `create` and the Apollo error handler. A code string in an
  error's extensions is either `Known(code)`, the value of one of the
  codes, or `Unlisted(s)`, a string that is no code's value.
- **Templates** (`Templates`). A template's `{{key}}` placeholders are
  substituted.
- **UI decisions** (`RecommendedQuestions`, `AnswerResult`). These are the
  recommended-questions panel properties, and when an answer is requested
  and which answer tabs are shown.

`Strings` holds the string operations these rely on, with the Python and
JavaScript meanings: `split`, `join`, `trim`/`strip`, `toLowerCase`,
`startsWith`, `replace` and `parseInt`. `Optional` holds `Option` (Python
`None`, a missing key) and `Nullish` (JavaScript `undefined`/`null`).

Foreign calls are inputs of the model:
- the engine's `dry_plan` and `execute_sql`;
- `clean_generation_result` and the JSON and literal decoders;
- `build_table_ddl`;
- `getAnswerIsFinished` and `canGenerateAnswer`;
- the `MSSQL_INSTANCE_PORT` environment value;
- the loaded template text.

A foreign call that can raise answers an `Option`, or the engine's
`Reply`, and the exception path is modelled.

Code over dictionaries and lists is modelled on values. The loops of the
source are methods proved against these functions:
- `ParseConnectionString` against `Parsed`;
- `ColumnFilter` against `KeptColumns`;
- `ConstructDbSchemas` against `DbSchemas`;
- `DbSchemaFilter` against `SchemaFilter`;
- `RenderTemplate` against `Rendered`;
- `ConstructAskHistoryMessages` against its alternation contract.

### Code and test disagree

A test in the repository,
`wren-ai-service/tests/pytest/pipelines/generation/test_sql_gen_post_processor.py:29-31`,
expects two things when a dry run fails:
- the invalid record's `sql` is the raw generated SQL;
- the record carries an `engine_sql` key.

The code at `wren-ai-service/src/pipelines/generation/utils/sql.py:125`
stores the engine's `error_sql` under `sql` and never writes
`engine_sql`. The model follows the code.
`SqlPostProcessor.DryRunFailureRecordsEngineSql` exhibits the record the
code produces for an engine that reports `error_sql` = `SELECT 1`.

## Model

| member | source | states |
|---|---|---|
| SqlPostProcessor.SelectMode | wren-ai-service/src/pipelines/generation/utils/sql.py:83-140 | The dry plan wins when asked for. Otherwise a dry run runs exactly when data preview is not allowed, and a preview runs otherwise. |
| SqlPostProcessor.InvalidTypeFor | wren-ai-service/src/pipelines/generation/utils/sql.py:100-159 | The type is TIME_OUT iff the message starts with "Request timed out". Otherwise it is DRY_PLAN or DRY_RUN by mode. In preview mode it is PREVIEW_EMPTY_DATA iff the message is empty, else PREVIEW_FAILED. |
| SqlPostProcessor.ClassifyGenerationResult | wren-ai-service/src/pipelines/generation/utils/sql.py:72-164 | The step raises iff the selected engine call raises. Otherwise exactly one record is set, and the valid one iff the engine reports success. A valid record's sql is the input. A dry-run record's correlation id is the engine's, or "" when it has none. A failed dry plan records the engine's error message. A failed dry run or preview records the engine's error sql (else the input), error message (else "") and correlation id (else ""). The invalid type follows the mode and message. original_sql is the input for dry run and preview and absent for dry plan. A dry-plan record has an empty correlation id and the input as sql. |
| SqlPostProcessor.Run | wren-ai-service/src/pipelines/generation/utils/sql.py:30-70 | The records are those of classifying the SQL read from the first reply, and both are empty when no SQL can be read or the classification raises. At most one record is set. A record is set iff there is a reply whose SQL can be read and the engine answers. Without replies (an exception) both are empty. |
| SqlPostProcessor.GeneratedSql | wren-ai-service/src/pipelines/generation/utils/sql.py:40-46 | No reply gives None, the exception path. A cleaned reply starting with "{" gives its decoded `sql` field. Any other cleaned reply is the SQL itself. |
| SqlPostProcessor.JsonReplyUsesSqlField | wren-ai-service/src/pipelines/generation/utils/sql.py:40-58 | A cleaned reply starting with "{" is classified by its decoded `sql` field. |
| SqlPostProcessor.OnlySelectedCheckConsulted | wren-ai-service/src/pipelines/generation/utils/sql.py:86-140 | The result depends only on the engine call the mode selects. |
| SqlPostProcessor.PreviewFailureKinds | wren-ai-service/src/pipelines/generation/utils/sql.py:142-162 | A failed preview records the engine's error_sql, or else the input, as sql. original_sql is the input, and the type is PREVIEW_EMPTY_DATA or PREVIEW_FAILED by message. |
| SqlPostProcessor.DryRunFailureRecordsEngineSql | wren-ai-service/src/pipelines/generation/utils/sql.py:122-132 | For an engine whose failed dry run reports error_sql `SELECT 1`, the invalid record's sql is `SELECT 1`, not the raw SQL. original_sql is the cleaned SQL. |
| SqlPostProcessor.ExtractFromSqlKnowledge | wren-ai-service/src/pipelines/generation/utils/sql.py:182-189 | The result is the default when there is no knowledge or the attribute is missing, empty or whitespace-only. Otherwise it is the attribute unchanged. |
| SqlPostProcessor.GetTextToSqlRules | wren-ai-service/src/pipelines/generation/utils/sql.py:192-198 | The result is the extraction of `text_to_sql_rule` with the default rules, including when there is no knowledge. |
| SqlPostProcessor.GetCalculatedFieldInstructions | wren-ai-service/src/pipelines/generation/utils/sql.py:201-209 | The result is the extraction of `calculated_field_instructions` with its default. |
| SqlPostProcessor.GetMetricInstructions | wren-ai-service/src/pipelines/generation/utils/sql.py:212-218 | The result is the extraction of `metric_instructions` with its default. |
| SqlPostProcessor.GetJsonFieldInstructions | wren-ai-service/src/pipelines/generation/utils/sql.py:221-227 | The result is the extraction of `json_field_instructions` with its default. |
| SqlPostProcessor.SystemPromptCarriesRules | wren-ai-service/src/pipelines/generation/utils/sql.py:230-236 | The rules replace the template's first `{{text_to_sql_rules}}` placeholder. The text before it holds no earlier placeholder, and the text around it holds no further one; it is kept as it is, other braces included. |
| SqlPostProcessor.SqlGenerationSystemPrompt | wren-ai-service/src/pipelines/generation/utils/sql.py:230-236 | The prompt is `render_template` of the template with the single key `text_to_sql_rules` and the resolved rules, that is one `str.replace` of every placeholder. A template without the placeholder comes back unchanged. |
| SqlPostProcessor.ConstructInstructions | wren-ai-service/src/pipelines/generation/utils/sql.py:255-264 | None or empty gives []. Otherwise there is one entry per instruction, in order, holding its `instruction` value or None. |
| SqlPostProcessor.ConstructAskHistoryMessages | wren-ai-service/src/pipelines/generation/utils/sql.py:267-284 | The result has 2n messages. They alternate between a user message with the question and an assistant message with the SQL, in history order. |
| ConnectionString.ParseConnectionString | wren-ui/src/apollo/server/services/domainInfoClient.ts:87-98 | The loop's result equals `Parsed`, and every stored key is trimmed, lower-cased and non-empty. |
| ConnectionString.Parsed | wren-ui/src/apollo/server/services/domainInfoClient.ts:87-98 | The dictionary the segments give when applied in order to an empty one. It has no contract of its own: ParsedKeys, ParsedConcat, SingleSetting and EmptyKeyIgnored state its properties. |
| ConnectionString.NonEmptyTrimmed | wren-ui/src/apollo/server/services/domainInfoClient.ts:88-91 | Every segment is non-empty, does not start with white space and is its own trimming. There are no more segments than parts. |
| ConnectionString.NonEmptyTrimmedSingle | wren-ui/src/apollo/server/services/domainInfoClient.ts:88-91 | One part gives its trimming, or nothing when it is blank. With NonEmptyTrimmedConcat this fixes every segment and its place. |
| ConnectionString.NonEmptyTrimmedConcat | wren-ui/src/apollo/server/services/domainInfoClient.ts:88-91 | Trimming and filtering distribute over concatenation. |
| ConnectionString.StoredKeyIsSettingKey | wren-ui/src/apollo/server/services/domainInfoClient.ts:94-96 | The key stored for a segment is trimmed, lower-cased and non-empty. |
| ConnectionString.ApplyAllKeys | wren-ui/src/apollo/server/services/domainInfoClient.ts:93-97 | The loop keeps every key trimmed, lower-cased and non-empty. |
| ConnectionString.ParsedKeys | wren-ui/src/apollo/server/services/domainInfoClient.ts:87-98 | Every key of a parsed string is trimmed, lower-cased and non-empty. |
| ConnectionString.ApplyAllConcat | wren-ui/src/apollo/server/services/domainInfoClient.ts:93-97 | Segments are applied one after the other. |
| ConnectionString.ApplyAllOverrides | wren-ui/src/apollo/server/services/domainInfoClient.ts:93-97 | Later segments override earlier settings. |
| ConnectionString.ParsedConcat | wren-ui/src/apollo/server/services/domainInfoClient.ts:87-98 | Parsing `a;b` gives the settings of `a` overridden by those of `b`, so a repeated key keeps its last value. |
| ConnectionString.BlankSegmentIgnored | wren-ui/src/apollo/server/services/domainInfoClient.ts:88-91 | A blank segment adds nothing. |
| ConnectionString.ParsedSingleSegment | wren-ui/src/apollo/server/services/domainInfoClient.ts:87-98 | A trimmed segment without `;` parses as that one segment applied. |
| ConnectionString.SingleSetting | wren-ui/src/apollo/server/services/domainInfoClient.ts:94-96 | `key=value` parses to the lower-cased, trimmed key mapped to the trimmed value. |
| ConnectionString.SegmentKeyAndValue | wren-ui/src/apollo/server/services/domainInfoClient.ts:94-96 | The key ends at the first `=`. The value is everything after it, including further `=`, trimmed. |
| ConnectionString.KeyValueSplit | wren-ui/src/apollo/server/services/domainInfoClient.ts:94-96 | For `key=value` with no `=` in the key, the key is `key` and the value is `value` trimmed. |
| ConnectionString.EmptyKeyIgnored | wren-ui/src/apollo/server/services/domainInfoClient.ts:95 | A segment with an empty key adds nothing. |
| ConnectionString.WithoutTcpPrefix | wren-ui/src/apollo/server/services/domainInfoClient.ts:111-113 | A leading `tcp:` in any letter case is removed, and nothing else changes. |
| ConnectionString.ExtractHostAndPort | wren-ui/src/apollo/server/services/domainInfoClient.ts:101-128 | With no source and no fallback host the result is "" and the fallback port. The port is always a number. Without a comma the port is the fallback port. |
| ConnectionString.FallbackHostUsed | wren-ui/src/apollo/server/services/domainInfoClient.ts:106 | The data source is read when it is non-empty, and otherwise the fallback host, or "" without one. |
| ConnectionString.NotTwoPartsKeepsSource | wren-ui/src/apollo/server/services/domainInfoClient.ts:116-125 | A non-empty source that does not split at commas into exactly two pieces is the host, once `tcp:` is removed, on the fallback port. |
| ConnectionString.HostCommaPort | wren-ui/src/apollo/server/services/domainInfoClient.ts:116-122 | `host,text` gives the host and `parseInt(text)`, or the fallback port when that is not a number. |
| ConnectionString.NumericPort | wren-ui/src/apollo/server/services/domainInfoClient.ts:116-122 | `host,1234` gives the host and port 1234. |
| ConnectionString.PlainSource | wren-ui/src/apollo/server/services/domainInfoClient.ts:116-125 | A non-empty source without a comma or `tcp:` prefix is the host, on the fallback port. |
| ConnectionString.TcpPrefixIgnored | wren-ui/src/apollo/server/services/domainInfoClient.ts:111-113 | A `tcp:` prefix does not change the result. |
| ConnectionString.SeveralCommasKeepWholeSource | wren-ui/src/apollo/server/services/domainInfoClient.ts:116-125 | With two or more commas the whole source is the host and the port is the fallback. |
| ConnectionString.FirstNonEmpty | wren-ui/src/apollo/server/services/domainInfoClient.ts:135-148 | The result is the value of the first key present with a non-empty value, or the default when there is none. |
| ConnectionString.NumberOf | wren-ui/src/apollo/server/services/domainInfoClient.ts:161 | `Number()` of a blank text is 0. |
| ConnectionString.NumberOfValue | wren-ui/src/apollo/server/services/domainInfoClient.ts:161 | White space, an optional `+` or `-`, decimal digits and white space give the digits' value with that sign. |
| ConnectionString.NumberOfTrimmedDigits | wren-ui/src/apollo/server/services/domainInfoClient.ts:161 | A text that trims to an optional sign and digits gives their signed value. |
| ConnectionString.NumberOfNonDigit | wren-ui/src/apollo/server/services/domainInfoClient.ts:161 | A text holding a character that is not white space, a digit or a sign is not an integer. |
| ConnectionString.NumberOfNumeral | wren-ui/src/apollo/server/services/domainInfoClient.ts:161 | `Number()` of a decimal numeral is the number it writes. |
| ConnectionString.InstancePort | wren-ui/src/apollo/server/services/domainInfoClient.ts:161 | An unset or empty environment value gives port 1433. A set, non-empty value gives `Number()` of that value. |
| ConnectionString.BuildMsSqlConnectionInfo | wren-ui/src/apollo/server/services/domainInfoClient.ts:130-188 | Database, user and password follow their key chains and defaults. Trust holds iff the value lower-cases to "true". A data source with `\` gives the host before the first `\` and the instance port. Any other source goes through ExtractHostAndPort with the server address and 1433. |
| ConnectionString.NamedInstanceIgnoresCommaPort | wren-ui/src/apollo/server/services/domainInfoClient.ts:155-161 | For `server\instance,port` the host is the server and the port is the instance port, and the comma port is ignored. |
| ConnectionString.ServerAddressFallback | wren-ui/src/apollo/server/services/domainInfoClient.ts:135-171 | Without a data-source key, the domain's server address is the data source. With `\` it gives the server part and the instance port. Without `\` it gives `extractHostAndPort(address, address, 1433)`, so `db,1500` is port 1500. An address with no `\`, no `,` and no `tcp:` prefix is the host on port 1433. |
| RelationshipRecommendation.RemoveDisplayName | wren-ai-service/src/pipelines/generation/relationship_recommendation.py:30-34 | Dict properties lose `displayName` and keep every other entry unchanged. Properties that are not a dict are left alone. |
| RelationshipRecommendation.CleanColumn | wren-ai-service/src/pipelines/generation/relationship_recommendation.py:30-42 | Only the properties change, and dict properties lose `displayName`. |
| RelationshipRecommendation.KeptColumns | wren-ai-service/src/pipelines/generation/relationship_recommendation.py:36-44 | No kept column has a `relationship` key or a `displayName` property. Each kept column is the cleaned copy of an input column, and there are no more than the input. |
| RelationshipRecommendation.ColumnFilter | wren-ai-service/src/pipelines/generation/relationship_recommendation.py:36-44 | The loop's result equals `KeptColumns`. |
| RelationshipRecommendation.KeptColumnsConcat | wren-ai-service/src/pipelines/generation/relationship_recommendation.py:38-43 | The filter distributes over concatenation, so order is kept. |
| RelationshipRecommendation.KeptColumnsSingle | wren-ai-service/src/pipelines/generation/relationship_recommendation.py:39-43 | A column is kept, cleaned, iff it has no `relationship` key. |
| RelationshipRecommendation.CleanedModels | wren-ai-service/src/pipelines/generation/relationship_recommendation.py:46-51 | There is one cleaned model per input model, in order, and [] without models. Each has filtered columns and no `displayName` property. |
| RelationshipRecommendation.ParseRelationType | wren-ai-service/src/pipelines/generation/relationship_recommendation.py:119-126 | A parsed type has the given value. |
| RelationshipRecommendation.ParseRelationTypeOfValue | wren-ai-service/src/pipelines/generation/relationship_recommendation.py:119-122 | Every type's value parses back to it. |
| RelationshipRecommendation.IsInclude | wren-ai-service/src/pipelines/generation/relationship_recommendation.py:124-126 | True iff the value is one of MANY_TO_ONE, ONE_TO_MANY and ONE_TO_ONE. |
| RelationshipRecommendation.ModelColumns | wren-ai-service/src/pipelines/generation/relationship_recommendation.py:91-100 | The keys are exactly the model names. |
| RelationshipRecommendation.ModelColumnsLastWins | wren-ai-service/src/pipelines/generation/relationship_recommendation.py:91-100 | A name maps to the columns of its last model. |
| RelationshipRecommendation.ModelColumnsSound | wren-ai-service/src/pipelines/generation/relationship_recommendation.py:91-100 | A listed column is a column of a model of that name with a falsy or missing `relationship`. |
| RelationshipRecommendation.IsValid | wren-ai-service/src/pipelines/generation/relationship_recommendation.py:106-112 | A relationship is valid iff its type is included and both its models are named models, each holding the named column. It has no contract of its own: Filtered and Validated keep exactly the valid relationships. |
| RelationshipRecommendation.Filtered | wren-ai-service/src/pipelines/generation/relationship_recommendation.py:103-113 | A relationship is kept iff it is in the input and valid, and the result is no longer than the input. |
| RelationshipRecommendation.Validated | wren-ai-service/src/pipelines/generation/relationship_recommendation.py:90-115 | The result is [] without relationships. Otherwise it keeps exactly the valid input relationships. |
| RelationshipRecommendation.FilteredConcat | wren-ai-service/src/pipelines/generation/relationship_recommendation.py:103-113 | The filter distributes over concatenation, so the result is a sub-list in input order. |
| RelationshipRecommendation.ValidatedSound | wren-ai-service/src/pipelines/generation/relationship_recommendation.py:103-113 | A kept relationship has a known type, and both endpoints are non-relationship columns of named models. |
| RelationshipRecommendation.FilteredIdempotent | wren-ai-service/src/pipelines/generation/relationship_recommendation.py:103-113 | Filtering twice is filtering once. |
| RelationshipRecommendation.ValidatedIdempotent | wren-ai-service/src/pipelines/generation/relationship_recommendation.py:90-115 | Validating the output again with the same model definition returns it unchanged. |
| RelationshipRecommendation.FalsyRelationshipColumnStillAnEndpoint | wren-ai-service/src/pipelines/generation/relationship_recommendation.py:39-96 | A column whose `relationship` is falsy is dropped by cleaning but is still a valid endpoint. |
| IntentClassification.EmbeddingQuery | wren-ai-service/src/pipelines/generation/intent_classification.py:37-42 | The text ends with a newline and then the query. |
| IntentClassification.NoHistoryLeadingNewline | wren-ai-service/src/pipelines/generation/intent_classification.py:37-44 | Without history the embedded text is a newline and then the query. |
| IntentClassification.EmbeddingQueryLines | wren-ai-service/src/pipelines/generation/intent_classification.py:37-44 | The embedded text splits into lines that are the previous questions and then the query. |
| IntentClassification.WithProject | wren-ai-service/src/pipelines/generation/intent_classification.py:58-59 | The project condition is appended iff the project id is non-empty. |
| IntentClassification.TableFilter | wren-ai-service/src/pipelines/generation/intent_classification.py:51-61 | The filter is an AND that starts with the TABLE_DESCRIPTION condition. It has a second, project condition iff the project id is non-empty. |
| IntentClassification.SchemaFilter | wren-ai-service/src/pipelines/generation/intent_classification.py:81-97 | The filter is an AND of the TABLE_SCHEMA condition, then an OR of one name condition per table in order, then a project condition iff the project id is non-empty. |
| IntentClassification.DbSchemaFilter | wren-ai-service/src/pipelines/generation/intent_classification.py:73-97 | The filter is the schema filter of the decoded names, in order. The step raises iff some content cannot be decoded. |
| IntentClassification.Put | wren-ai-service/src/pipelines/generation/intent_classification.py:108-125 | A dict assignment: a new name goes last, a known name keeps its place, and each name is listed once. |
| IntentClassification.Merge | wren-ai-service/src/pipelines/generation/intent_classification.py:108-125 | One document's merge raises iff it has no type, or is a TABLE_COLUMNS document without columns. |
| IntentClassification.MergeAll | wren-ai-service/src/pipelines/generation/intent_classification.py:106-125 | The merged schemas list each name once. |
| IntentClassification.Ddls | wren-ai-service/src/pipelines/generation/intent_classification.py:128-136 | Each DDL string is built from a named entry with a type of TABLE and columns. |
| IntentClassification.DdlsComplete | wren-ai-service/src/pipelines/generation/intent_classification.py:128-136 | Every named entry with a type of TABLE and columns contributes its DDL. |
| IntentClassification.DdlsSingle | wren-ai-service/src/pipelines/generation/intent_classification.py:131-134 | One name contributes its DDL iff its entry has a type of TABLE and columns. |
| IntentClassification.DdlsConcat | wren-ai-service/src/pipelines/generation/intent_classification.py:130-136 | The DDLs of two runs of names are those of the first run and then those of the second, so they follow the order of the names. |
| IntentClassification.BuildDdls | wren-ai-service/src/pipelines/generation/intent_classification.py:130-136 | The loop's result equals `Ddls`. |
| IntentClassification.Decoded | wren-ai-service/src/pipelines/generation/intent_classification.py:107-109 | The documents' decoded contents, in order. This is None iff some content cannot be decoded. |
| IntentClassification.ConstructDbSchemas | wren-ai-service/src/pipelines/generation/intent_classification.py:106-136 | The two loops' result equals `DbSchemas`: the merge, the dropping of incomplete entries and one DDL per TABLE entry. |
| IntentClassification.MergeStuck | wren-ai-service/src/pipelines/generation/intent_classification.py:107-125 | Once a document raises, the whole merge raises. |
| IntentClassification.RaisesAt | wren-ai-service/src/pipelines/generation/intent_classification.py:107-125 | A document whose merge raises makes the step raise. |
| IntentClassification.ColumnDocuments | wren-ai-service/src/pipelines/generation/intent_classification.py:118-125 | One TABLE_COLUMNS document per column list, for one name. |
| IntentClassification.MergeColumnDocument | wren-ai-service/src/pipelines/generation/intent_classification.py:118-125 | One TABLE_COLUMNS document appends its columns to the entry's columns, or to [] when there are none, and keeps its type. |
| IntentClassification.MergeOrder | wren-ai-service/src/pipelines/generation/intent_classification.py:108-125 | A merge step appends a new name of a TABLE or TABLE_COLUMNS document to the order, and otherwise keeps the order. |
| IntentClassification.ColumnDocumentsConcatenate | wren-ai-service/src/pipelines/generation/intent_classification.py:118-125 | TABLE_COLUMNS documents for one name append their columns, in document order, to the entry's columns. They leave its type alone. |
| IntentClassification.TableDocumentKeepsColumns | wren-ai-service/src/pipelines/generation/intent_classification.py:111-117 | A TABLE document for a known name replaces type and fields and keeps the columns gathered so far, or [] when there are none. |
| IntentClassification.ColumnsOnlyNameYieldsNothing | wren-ai-service/src/pipelines/generation/intent_classification.py:118-136 | A name with only column documents has no type and yields no DDL. |
| IntentClassification.NamesOnlyFromItems | wren-ai-service/src/pipelines/generation/intent_classification.py:108-125 | Every merged name comes from a document. |
| IntentClassification.DdlsNone | wren-ai-service/src/pipelines/generation/intent_classification.py:128-136 | Entries without a type yield no DDL. |
| IntentClassification.FirstSeen | wren-ai-service/src/pipelines/generation/intent_classification.py:108-125 | The first-seen order holds exactly the given names. |
| IntentClassification.TableNames | wren-ai-service/src/pipelines/generation/intent_classification.py:111-125 | There are no more table document names than documents. |
| IntentClassification.MergeKeepsFirstSeenOrder | wren-ai-service/src/pipelines/generation/intent_classification.py:106-136 | Entries, and so DDLs, come in the order their names first appear among the TABLE and TABLE_COLUMNS documents. |
| IntentClassification.PostProcess | wren-ai-service/src/pipelines/generation/intent_classification.py:171-186 | On a missing or unreadable reply the result is TEXT_TO_SQL with empty texts. Otherwise it holds the reply's three values. The schemas pass through in both cases. |
| ApiErrors.ValueNonEmpty | wren-ui/src/apollo/server/utils/error.ts:4-63 | No code's string value is empty, so a code is never taken for a missing one by `||`. |
| ApiErrors.CodeNamed | wren-ui/src/apollo/server/utils/error.ts:4-63 | A code found for a string has that string as its value. |
| ApiErrors.CodeNamedValue | wren-ui/src/apollo/server/utils/error.ts:4-63 | Every code's value is found as that code. |
| ApiErrors.ValueInjective | wren-ui/src/apollo/server/utils/error.ts:4-63 | No two codes share a value. |
| ApiErrors.ReadCode | wren-ui/src/apollo/server/utils/error.ts:228-229 | A code string reads back as the same characters. It is `Known` iff it is some code's value. |
| ApiErrors.Lookup | wren-ui/src/apollo/server/utils/error.ts:65-160 | A lookup finds an entry exactly when the code string is a listed code's value, and the entry is that code's non-empty text in that table. |
| ApiErrors.TablesCoverAllButFour | wren-ui/src/apollo/server/utils/error.ts:65-160 | Both tables list every code except RESOURCE_NOT_FOUND, MDL_PARSE_ERROR, OTHERS and WREN_ENGINE_ERROR. |
| ApiErrors.Create | wren-ui/src/apollo/server/utils/error.ts:162-197 | The code defaults to INTERNAL_SERVER_ERROR. The message is the first non-empty of the custom message, the original error's message and the code's entry, then the internal-error entry. The message is repeated in extensions and is never empty. The short message falls back to the internal one. Options pass through. |
| ApiErrors.NoCodeMeansInternal | wren-ui/src/apollo/server/utils/error.ts:173 | Omitting the code is the same as INTERNAL_SERVER_ERROR. |
| ApiErrors.UncataloguedCodeFallsBack | wren-ui/src/apollo/server/utils/error.ts:176-191 | A code without entries gets the internal-error short message whatever the options, and the internal-error message when no options are given. |
| ApiErrors.CataloguedCodeUsesItsEntries | wren-ui/src/apollo/server/utils/error.ts:176-191 | A code with entries gets its own message and short message. |
| ApiErrors.EmptyCustomMessageFallsThrough | wren-ui/src/apollo/server/utils/error.ts:176-178 | An empty custom message falls through to the original error's message. |
| ApiErrors.HandleError | wren-ui/src/apollo/server/utils/error.ts:226-246 | A non-GraphQL error is returned unchanged. Otherwise the locations, path and message are copied, and a missing or empty code becomes INTERNAL_SERVER_ERROR. The short message is looked up without fallback, and stacktrace and other are copied. The extensions have no other keys. |
| ApiErrors.HandleCodeString | wren-ui/src/apollo/server/utils/error.ts:226-245 | A GraphQL error carrying a non-empty code string keeps that string. Its short message is the code's entry iff the code is catalogued, and missing when the string is no code's value. |
| ApiErrors.HandleCreated | wren-ui/src/apollo/server/utils/error.ts:162-246 | Handling a created error keeps code, message and payload. It drops the short message for the four uncatalogued codes and keeps it for the others. |
| Templates.Marker | wren-ai-service/src/templates/__init__.py:18 | The marker is `{{`, the key, `}}`. |
| Templates.RenderTemplate | wren-ai-service/src/templates/__init__.py:14-19 | The loop's result equals `Rendered`, and with no replacements it is the template text. |
| Templates.RenderedSequential | wren-ai-service/src/templates/__init__.py:17-18 | Replacements apply one after the other, each to the previous result. |
| Templates.RenderedWithoutMarkers | wren-ai-service/src/templates/__init__.py:15-18 | Text containing none of the markers is unchanged. |
| Templates.SingleBracesAreKept | wren-ai-service/src/templates/__init__.py:18 | `{key}` with single braces is not replaced. |
| Templates.EveryOccurrenceReplaced | wren-ai-service/src/templates/__init__.py:18 | Every occurrence of the marker is replaced, not just the first. |
| Templates.LaterKeyRewritesEarlierValue | wren-ai-service/src/templates/__init__.py:17-18 | A value inserted for an earlier key is rewritten by a later key, but not the other way round. |
| RecommendedQuestions.GetRecommendedQuestionProps | wren-ui/src/components/pages/home/RecommendedQuestions.tsx:45-63 | Missing data or a show flag that is not requested gives `{show: false}` alone. Otherwise the items are the first three questions in order, with question and sql only. Loading holds iff the status is GENERATING, show iff loading or some item, and the error is copied. |
| RecommendedQuestions.NoQuestionsNotGeneratingHides | wren-ui/src/components/pages/home/RecommendedQuestions.tsx:49-62 | A task with no questions that is not generating is hidden, but its state is reported. |
| RecommendedQuestions.OnlyFirstThreeMatter | wren-ui/src/components/pages/home/RecommendedQuestions.tsx:50 | Questions after the third do not change the result. |
| AnswerResult.StatusOf | wren-ui/src/components/pages/home/promptThread/AnswerResult.tsx:165 | The status of a missing answer detail is undefined. A present detail gives its own status. |
| AnswerResult.IsNeedGenerateAnswer | wren-ui/src/components/pages/home/promptThread/AnswerResult.tsx:164-173 | True iff the query id is exactly null and the status is neither finished nor NOT_STARTED, PREPROCESSING or FETCHING_DATA. |
| AnswerResult.MissingDetailNeedsNothing | wren-ui/src/components/pages/home/promptThread/AnswerResult.tsx:172 | An undefined or null answer detail needs no answer. |
| AnswerResult.IsAnswerPrepared | wren-ui/src/components/pages/home/promptThread/AnswerResult.tsx:210 | True iff the detail has a non-zero query id or a status. |
| AnswerResult.IsBreakdownOnly | wren-ui/src/components/pages/home/promptThread/AnswerResult.tsx:211-215 | True iff the answer detail is null and the breakdown detail has keys. |
| AnswerResult.RequestsAnswer | wren-ui/src/components/pages/home/promptThread/AnswerResult.tsx:218-223 | An answer is requested iff the response is not breakdown-only, generation is allowed and an answer is needed. |
| AnswerResult.ShowAnswerTabs | wren-ui/src/components/pages/home/promptThread/AnswerResult.tsx:251-254 | Tabs show iff the asking task finished, or the detail has a non-zero query id or a status, or the detail is null and the breakdown has keys. |
| AnswerResult.Tabs | wren-ui/src/components/pages/home/promptThread/AnswerResult.tsx:251-304 | Tabs are shown iff the asking task finished, the answer is prepared or the response is breakdown-only. The answer tab is present iff shown and not breakdown-only. SQL and chart tabs come last. |
| AnswerResult.BreakdownOnlyShowsNoAnswer | wren-ui/src/components/pages/home/promptThread/AnswerResult.tsx:211-269 | A breakdown-only response requests no answer and shows only the SQL and chart tabs. |
| AnswerResult.RequestedAnswerIsNotPreparedById | wren-ui/src/components/pages/home/promptThread/AnswerResult.tsx:210-254 | A response that requests an answer shows tabs only when the asking task finished or its detail has a status. |
| Strings.Trim | wren-ui/src/apollo/server/services/domainInfoClient.ts:90 | A trimmed string is empty or has no white space at either end. |
| Strings.TrimIsMiddle | wren-ui/src/apollo/server/services/domainInfoClient.ts:90 | The trimmed string is the slice of the input between its leading and its trailing white space, and both are blank. |
| Strings.TrimPadded | wren-ui/src/apollo/server/services/domainInfoClient.ts:90 | Trimming white-space padding off a text whose ends are not white space gives that text. |
| Strings.NonSpaceKept | wren-ui/src/apollo/server/services/domainInfoClient.ts:90 | A character that is not white space survives trimming, shifted by the leading white space. |
| Strings.TrimEmptyIffBlank | wren-ui/src/apollo/server/services/domainInfoClient.ts:90 | A string trims to nothing iff it is all white space. |
| Strings.TrimIdempotent | wren-ui/src/apollo/server/services/domainInfoClient.ts:90 | Trimming twice is trimming once. |
| Strings.ToLower | wren-ui/src/apollo/server/services/domainInfoClient.ts:96 | Each character is lower-cased on its own, and the length is kept. |
| Strings.ToLowerIdempotent | wren-ui/src/apollo/server/services/domainInfoClient.ts:96 | Lower-casing twice is lower-casing once. |
| Strings.StartsWith | wren-ai-service/src/pipelines/generation/utils/sql.py:44 | The text begins with the prefix. It is a predicate without a contract. |
| Strings.Split | wren-ui/src/apollo/server/services/domainInfoClient.ts:88-89 | A split has at least one piece. |
| Strings.SplitAbsent | wren-ui/src/apollo/server/services/domainInfoClient.ts:116-125 | Text without the separator splits into itself alone. |
| Strings.SplitConcat | wren-ui/src/apollo/server/services/domainInfoClient.ts:88-89 | Splitting `a` + separator + `b` gives the pieces of `a`, then those of `b`. |
| Strings.SplitTwoSeparators | wren-ui/src/apollo/server/services/domainInfoClient.ts:116-117 | Text with two separators splits into at least three pieces. |
| Strings.Join | wren-ui/src/apollo/server/services/domainInfoClient.ts:96 | The pieces with one separator between neighbours. It has no contract of its own: JoinSplit and SplitJoin state its properties. |
| Strings.JoinSplit | wren-ui/src/apollo/server/services/domainInfoClient.ts:94-96 | Joining the pieces of a split gives back the string. |
| Strings.SplitJoin | wren-ai-service/src/pipelines/generation/intent_classification.py:42 | Splitting a join of separator-free pieces gives back the pieces. |
| Strings.ReplaceAll | wren-ai-service/src/templates/__init__.py:18 | Every occurrence, from left to right, is replaced. It has no contract of its own: the Replace lemmas state its properties. |
| Strings.ReplaceAbsent | wren-ai-service/src/templates/__init__.py:18 | Text without the pattern is unchanged. |
| Strings.ReplaceFirstOccurrence | wren-ai-service/src/templates/__init__.py:18 | The first occurrence is replaced and the rest is replaced after it. |
| Strings.ParseInt | wren-ui/src/apollo/server/services/domainInfoClient.ts:119-120 | The result is a number (not NaN) iff a digit follows the leading white space and an optional sign. |
| Strings.ParseIntValue | wren-ui/src/apollo/server/services/domainInfoClient.ts:119-120 | White space, an optional `+` or `-`, digits and a tail that does not start with a digit give the digits' value with that sign. |
| Strings.ParseIntSkipsBlank | wren-ui/src/apollo/server/services/domainInfoClient.ts:119 | Leading white space does not change the result. |
| Strings.ParseIntNumeral | wren-ui/src/apollo/server/services/domainInfoClient.ts:119-120 | A decimal numeral reads back as the number it writes. |

## Left out

- Logging, tracing (`@observe`, `trace_cost`), the asking-task and recommendation trackers, debouncing and polling timers, and the streaming queues. These are I/O, timers and concurrency.
- The SOAP call and XML parsing in `getDomainInfoByHost`, which are network calls into a foreign library. The domain information is an input.
- Loading template files. The template text is an input. `sql_generation.py` is not part of this model, because its only logic is the getters modelled here.
- The engine, aiohttp sessions, `clean_generation_result`, `orjson`, `ast.literal_eval`, `build_table_ddl`, embedders, retrievers and language-model generators. They are function inputs. A decoder that raises, or a key it needs that is missing, is `None`.
- The relationship pipeline's `normalized` step, the JSON decoding of the reply. The decoded relationships are the input of `Validated`.
- Copying versus mutation of dictionaries. The model works on values, so "the input is not mutated" holds by construction, and aliasing is not represented.
- Strings.Trim: white space is space, tab, line feed, carriage return, vertical tab and form feed. Python's `str.strip()` also strips `\x1c`-`\x1f`, `\x85`, `\xa0` and the other Unicode white space. JavaScript's `trim()` also strips `\xa0`, `\ufeff`, the Unicode space separators and `\u2028`/`\u2029`. Neither extra set is modelled, so the two languages' trims are one function here.
- Strings.ToLower: only `A`-`Z` are lower-cased. Unicode case mappings are left out.
- ConnectionString.NumberOf: `Number()` of decimals with a fraction, exponents, `0x` hex, `0b` binary and `0o` octal literals and `Infinity` is reported as not an integer, not as its value.
- Strings.ParseInt: values beyond the range where JavaScript numbers are exact are kept exact.
- ConnectionString.BuildMsSqlConnectionInfo: `DbServerAddress` is always a string here. An `undefined` server address, which would make `includes` throw, is not modelled.
- ConnectionString.ParseConnectionString: a `__proto__` key is not stored, because assigning it on a plain object changes the prototype instead of adding a key. Other keys inherited from `Object.prototype` are not modelled.
- ApiErrors.HandleError: looking up a code string that names an `Object.prototype` member (for example `constructor`) is treated as a missing entry. A code string in the model is a `CodeString`: `Known(code)`, or `Unlisted(s)` for a string that is no code's value. ValueInjective and CodeNamedValue prove this reading is unique.
- SqlPostProcessor.ClassifyGenerationResult: an `addition` key that is present with the value `None` is treated as a missing key. In the code, `addition.get("error_message", "")` then returns `None`, `.startswith` raises (sql.py:128 and :158), and `run` returns two empty records. A `None` correlation id or error SQL would be copied into the record as `None` instead of the default.
- RelationshipRecommendation.Validated: model names, column names and relationship fields are strings or missing. Other JSON types and a `KeyError` on a model without `name` are not modelled.
- IntentClassification.ConstructDbSchemas: a document's `meta["name"]` is always present. A missing name would raise, and that is not modelled.
- AnswerResult.IsNeedGenerateAnswer: the answer and asking statuses other than those compared in the code are opaque names. The generated GraphQL types that define them are not part of this model.
- RecommendedQuestions.GetRecommendedQuestionProps: statuses other than GENERATING are opaque names.
- The message texts of `errorMessages` and `shortMessages` are opaque catalogued texts, and each is known to be non-empty.
