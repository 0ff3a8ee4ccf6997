/** Timed questions as the player receives them in its `questions` option,
    and `showQuestion`'s lookup and choice of presentation. */
module Questions {
  import opened Js

  /** A question id as the notification rows carry it (`data-question-id`). */
  type QuestionId = string

  /** `CS50.Video.QuestionMode`: flip the player over, or show the question
      in a side panel. Any other value selects neither branch. */
  datatype Mode = Flip | Panel | OtherMode

  datatype QuestionData = QuestionData(id: QuestionId, text: string, tags: seq<string>)

  /** One entry of the `questions` option: when it becomes available, how it
      is shown, and the question itself. */
  datatype TimedQuestion = TimedQuestion(timecode: int, mode: Mode, question: QuestionData)

  /** `_.find(questions, e => e.question.id == id)`, as an index: the first
      question carrying `id`, if any. */
  function FirstWithId(qs: seq<TimedQuestion>, id: QuestionId): (r: Option<nat>)
    ensures r.Some? ==> r.value < |qs| && qs[r.value].question.id == id
    ensures r.Some? ==> forall j :: 0 <= j < r.value ==> qs[j].question.id != id
    ensures r.None? ==> forall j :: 0 <= j < |qs| ==> qs[j].question.id != id
    decreases |qs|
  {
    if qs == [] then None
    else if qs[0].question.id == id then Some(0)
    else
      match FirstWithId(qs[1..], id)
      case None => None
      case Some(k) => Some(k + 1)
  }

  /** What showing a question does: flip the player (and pause it), open it
      in the panel, or nothing. */
  datatype Display = NoDisplay | FlipDisplay(shown: TimedQuestion) | PanelDisplay(shown: TimedQuestion)

  /** `showQuestion(id)`: look the question up and dispatch on its mode. */
  function Show(qs: seq<TimedQuestion>, id: QuestionId): (d: Display)
    ensures (forall j :: 0 <= j < |qs| ==> qs[j].question.id != id) ==> d == NoDisplay
    ensures !d.NoDisplay? ==>
              exists k :: 0 <= k < |qs| && qs[k] == d.shown && qs[k].question.id == id &&
                          forall j :: 0 <= j < k ==> qs[j].question.id != id
    ensures d.FlipDisplay? ==> d.shown.mode == Flip
    ensures d.PanelDisplay? ==> d.shown.mode == Panel
    ensures (exists k :: 0 <= k < |qs| && qs[k].question.id == id && qs[k].mode != OtherMode &&
                         forall j :: 0 <= j < k ==> qs[j].question.id != id) ==> !d.NoDisplay?
  {
    match FirstWithId(qs, id)
    case None => NoDisplay
    case Some(k) =>
      match qs[k].mode
      case Flip => FlipDisplay(qs[k])
      case Panel => PanelDisplay(qs[k])
      case OtherMode => NoDisplay
  }
}
