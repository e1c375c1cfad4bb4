/**
 * The decisions an answer in a prompt thread makes before rendering:
 * whether to ask for a text answer, whether the response is an old
 * breakdown-only one, and which answer tabs to show.
 *
 * `getAnswerIsFinished` and `canGenerateAnswer` are defined elsewhere; the
 * first is a function input and the second an input value.
 */
module AnswerResult {
  import opened Optional

  /** The answer statuses that are told apart here. */
  datatype AnswerStatus = NotStarted | Preprocessing | FetchingData | OtherAnswerStatus(name: string)

  /** The asking task's statuses; only `FINISHED` is told apart. */
  datatype AskingStatus = AskingFinished | OtherAskingStatus(name: string)

  /** A response's answer detail; a query id of `0` is falsy. */
  datatype AnswerDetail = AnswerDetail(queryId: Nullish<int>, status: Nullish<AnswerStatus>)

  /** The part of a thread response these decisions read; `breakdownDetail` as its own keys. */
  datatype ThreadResponse = ThreadResponse(askingStatus: Nullish<AskingStatus>, answerDetail: Nullish<AnswerDetail>, breakdownDetail: Nullish<set<string>>)

  /** The answer tabs. */
  datatype Tab = AnswerTab | ViewSqlTab | ChartTab

  /** `answerDetail?.status`. */
  function StatusOf(answerDetail: Nullish<AnswerDetail>): (s: Nullish<AnswerStatus>)
    ensures !answerDetail.Present? ==> s.Undefined?
    ensures answerDetail.Present? ==> s == answerDetail.value.status
  {
    answerDetail.Map((d: AnswerDetail) => d.status)
  }

  /** A status that means the answer is already on its way. */
  predicate IsProcessing(status: Nullish<AnswerStatus>) {
    status.Present? && status.value in {NotStarted, Preprocessing, FetchingData}
  }

  /** `isNeedGenerateAnswer`: the query id is exactly `null` and the answer is neither finished nor processing. */
  function IsNeedGenerateAnswer(answerDetail: Nullish<AnswerDetail>, isFinished: Nullish<AnswerStatus> -> bool): (need: bool)
    ensures need ==> answerDetail.Present? && answerDetail.value.queryId.Null?
    ensures need ==> !isFinished(answerDetail.value.status) && !IsProcessing(answerDetail.value.status)
    ensures (answerDetail.Present? && answerDetail.value.queryId.Null? && !isFinished(answerDetail.value.status)
             && !IsProcessing(answerDetail.value.status)) ==> need
  {
    var queryIdIsNull := answerDetail.Present? && answerDetail.value.queryId.Null?;
    var status := StatusOf(answerDetail);
    queryIdIsNull && !isFinished(status) && !IsProcessing(status)
  }

  /** A missing answer detail, `undefined` or `null`, never asks for an answer. */
  lemma MissingDetailNeedsNothing(isFinished: Nullish<AnswerStatus> -> bool)
    ensures !IsNeedGenerateAnswer(Undefined, isFinished)
    ensures !IsNeedGenerateAnswer(Null, isFinished)
  {
  }

  /** `isAnswerPrepared`: a truthy query id or status. */
  function IsAnswerPrepared(answerDetail: Nullish<AnswerDetail>): (prepared: bool)
    ensures prepared <==> (answerDetail.Present? &&
                           ((answerDetail.value.queryId.Present? && answerDetail.value.queryId.value != 0) || answerDetail.value.status.Present?))
  {
    match answerDetail
    case Present(d) => (d.queryId.Present? && d.queryId.value != 0) || d.status.Present?
    case _ => false
  }

  /** lodash `isEmpty` on an object: missing, or without own keys. */
  predicate IsEmpty(keys: Nullish<set<string>>) {
    !keys.Present? || keys.value == {}
  }

  /** `isBreakdownOnly`: an old response, whose answer detail is `null` but whose breakdown is not empty. */
  function IsBreakdownOnly(r: ThreadResponse): (only: bool)
    ensures only <==> r.answerDetail.Null? && r.breakdownDetail.Present? && r.breakdownDetail.value != {}
  {
    r.answerDetail.Null? && !IsEmpty(r.breakdownDetail)
  }

  /** Whether the answer effect asks for a text answer (and recommended questions). */
  function RequestsAnswer(r: ThreadResponse, canGenerate: bool, isFinished: Nullish<AnswerStatus> -> bool): (requested: bool)
    ensures requested <==> !IsBreakdownOnly(r) && canGenerate && IsNeedGenerateAnswer(r.answerDetail, isFinished)
  {
    if IsBreakdownOnly(r) then false
    else canGenerate && IsNeedGenerateAnswer(r.answerDetail, isFinished)
  }

  /** `showAnswerTabs`: the asking task finished, the answer is prepared, or the response is breakdown-only. */
  function ShowAnswerTabs(r: ThreadResponse): (show: bool)
    ensures show <==> || r.askingStatus == Present(AskingFinished)
                      || (r.answerDetail.Present? && ((r.answerDetail.value.queryId.Present? && r.answerDetail.value.queryId.value != 0)
                                                      || r.answerDetail.value.status.Present?))
                      || (r.answerDetail.Null? && r.breakdownDetail.Present? && r.breakdownDetail.value != {})
  {
    r.askingStatus == Present(AskingFinished) || IsAnswerPrepared(r.answerDetail) || IsBreakdownOnly(r)
  }

  /** The tabs rendered, in order: none unless shown, and no answer tab for a breakdown-only response. */
  function Tabs(r: ThreadResponse): (tabs: seq<Tab>)
    ensures ShowAnswerTabs(r) <==> tabs != []
    ensures AnswerTab in tabs <==> ShowAnswerTabs(r) && !IsBreakdownOnly(r)
    ensures ShowAnswerTabs(r) ==> |tabs| >= 2 && tabs[|tabs| - 2..] == [ViewSqlTab, ChartTab]
  {
    if !ShowAnswerTabs(r) then []
    else if IsBreakdownOnly(r) then [ViewSqlTab, ChartTab]
    else [AnswerTab, ViewSqlTab, ChartTab]
  }

  /** A breakdown-only response shows its tabs, without the answer tab, and never asks for an answer. */
  lemma BreakdownOnlyShowsNoAnswer(r: ThreadResponse, canGenerate: bool, isFinished: Nullish<AnswerStatus> -> bool)
    requires IsBreakdownOnly(r)
    ensures !RequestsAnswer(r, canGenerate, isFinished)
    ensures Tabs(r) == [ViewSqlTab, ChartTab]
  {
  }

  /** A response that asks for an answer has no query id yet, so its tabs wait for the asking task or a status. */
  lemma RequestedAnswerIsNotPreparedById(r: ThreadResponse, canGenerate: bool, isFinished: Nullish<AnswerStatus> -> bool)
    requires RequestsAnswer(r, canGenerate, isFinished)
    ensures ShowAnswerTabs(r) <==> r.askingStatus == Present(AskingFinished) || r.answerDetail.value.status.Present?
  {
  }
}
