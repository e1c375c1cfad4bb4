/**
 * The home page's recommended-questions panel: what the panel is given
 * for a recommendation task, before it is rendered.
 */
module RecommendedQuestions {
  import opened Optional

  /** The statuses of a recommendation task; only `GENERATING` is told apart. */
  datatype RecommendationStatus = Generating | OtherRecommendationStatus(name: string)

  /** A recommended question as the task reports it. */
  datatype QuestionItem = QuestionItem(question: string, sql: string, category: string)

  /** A task error, passed along unread. */
  datatype TaskError = TaskError(shortMessage: Nullish<string>, code: Nullish<string>, message: Nullish<string>, stacktrace: Nullish<seq<string>>)

  /** A recommendation task. */
  datatype RecommendationTask = RecommendationTask(questions: Nullish<seq<QuestionItem>>, status: Nullish<RecommendationStatus>, error: Nullish<TaskError>)

  /** What the panel offers for selection: a question and its SQL. */
  datatype SelectQuestion = SelectQuestion(question: string, sql: string)

  /** The panel's state. */
  datatype PanelState = PanelState(items: seq<SelectQuestion>, loading: bool, error: Nullish<TaskError>)

  /** The panel's properties: whether to show it and, unless hidden outright, its state. */
  datatype PanelProps = PanelProps(show: bool, state: Option<PanelState>)

  /** At most this many questions are offered. */
  const MaxQuestions: nat := 3

  /** `!show` for the parameter `show = true`: only `undefined` takes the default. */
  predicate ShowRequested(show: Nullish<bool>) {
    show.Undefined? || show == Present(true)
  }

  /** `getRecommendedQuestionProps`. */
  function GetRecommendedQuestionProps(data: Nullish<RecommendationTask>, show: Nullish<bool>): (p: PanelProps)
    ensures !data.Present? || !ShowRequested(show) <==> p == PanelProps(false, None)
    ensures data.Present? && ShowRequested(show) ==>
      var questions := if data.value.questions.Present? then data.value.questions.value else [];
      && p.state.Some?
      && |p.state.value.items| == (if |questions| < MaxQuestions then |questions| else MaxQuestions)
      && (forall i :: 0 <= i < |p.state.value.items| ==>
            p.state.value.items[i] == SelectQuestion(questions[i].question, questions[i].sql))
      && (p.state.value.loading <==> data.value.status == Present(Generating))
      && (p.show <==> p.state.value.loading || |p.state.value.items| > 0)
      && p.state.value.error == data.value.error
  {
    if !data.Present? || !ShowRequested(show) then PanelProps(false, None)
    else
      var task := data.value;
      var questions := if task.questions.Present? then task.questions.value else [];
      var first := if |questions| < MaxQuestions then questions else questions[..MaxQuestions];
      var items := seq(|first|, i requires 0 <= i < |first| => SelectQuestion(first[i].question, first[i].sql));
      var loading := task.status == Present(Generating);
      PanelProps(loading || |items| > 0, Some(PanelState(items, loading, task.error)))
  }

  /** A finished task without questions hides the panel but still reports its state. */
  lemma NoQuestionsNotGeneratingHides(status: RecommendationStatus, error: Nullish<TaskError>)
    requires status != Generating
    ensures var p := GetRecommendedQuestionProps(Present(RecommendationTask(Present([]), Present(status), error)), Undefined);
      !p.show && p.state == Some(PanelState([], false, error))
  {
  }

  /** The items offered never depend on questions past the third. */
  lemma OnlyFirstThreeMatter(task: RecommendationTask, more: seq<QuestionItem>)
    requires task.questions.Present? && |task.questions.value| >= MaxQuestions
    ensures var longer := task.(questions := Present(task.questions.value + more));
      GetRecommendedQuestionProps(Present(longer), Undefined) == GetRecommendedQuestionProps(Present(task), Undefined)
  {
    var qs := task.questions.value;
    assert (qs + more)[..MaxQuestions] == qs[..MaxQuestions];
  }
}
