/** The options record handed to the `CS50.Video` constructor, and the
    constructor's checks and defaults. The constructor stores the caller's
    object and writes the defaults into it, so the record it leaves behind is
    the one it was given, normalised in place. */
module Options {
  import opened Js
  import opened Questions

  datatype Options = Options(
    playerContainer: JsValue<string>,
    notificationsContainer: JsValue<string>,
    video: JsValue<string>,
    autostart: JsValue<bool>,
    height: JsValue<int>,
    questions: JsValue<seq<TimedQuestion>>,
    srt: JsValue<string>,
    swf: JsValue<string>,
    title: JsValue<string>,
    width: JsValue<int>,
    transcriptContainer: JsValue<string>,
    questionContainer: JsValue<string>,
    checkUrl: JsValue<string>)

  /** The three errors the constructor throws, in the order it checks them. */
  datatype ConfigError = NoPlayerContainer | NoNotificationsContainer | NoVideo

  const DefaultAutostart := true
  const DefaultHeight := 360
  const DefaultSwf := "./flashmediaelement.swf"
  const DefaultTitle := ""
  const DefaultWidth := 640

  /** The state the constructor leaves the options in: the required fields are
      truthy and no optional field is `undefined`. */
  predicate Normalised(o: Options) {
    && TruthyString(o.playerContainer)
    && TruthyString(o.notificationsContainer)
    && TruthyString(o.video)
    && !o.autostart.Undefined? && !o.height.Undefined? && !o.questions.Undefined?
    && !o.srt.Undefined? && !o.swf.Undefined? && !o.title.Undefined? && !o.width.Undefined?
  }

  /** The constructor's option handling: throw when a required option is
      falsy, otherwise fill each absent optional field with its default. */
  function Normalize(o: Options): (r: Result<Options, ConfigError>)
    ensures r.Failure? <==>
              !TruthyString(o.playerContainer) || !TruthyString(o.notificationsContainer) || !TruthyString(o.video)
    ensures r.Failure? && !TruthyString(o.playerContainer) ==> r.error == NoPlayerContainer
    ensures r.Failure? && TruthyString(o.playerContainer) && !TruthyString(o.notificationsContainer) ==>
              r.error == NoNotificationsContainer
    ensures r.Failure? && TruthyString(o.playerContainer) && TruthyString(o.notificationsContainer) ==>
              r.error == NoVideo
    ensures r.Success? ==> Normalised(r.value)
    // a supplied value, `null` and `false` included, is kept
    ensures r.Success? ==>
              && (!o.autostart.Undefined? ==> r.value.autostart == o.autostart)
              && (!o.height.Undefined? ==> r.value.height == o.height)
              && (!o.questions.Undefined? ==> r.value.questions == o.questions)
              && (!o.srt.Undefined? ==> r.value.srt == o.srt)
              && (!o.swf.Undefined? ==> r.value.swf == o.swf)
              && (!o.title.Undefined? ==> r.value.title == o.title)
              && (!o.width.Undefined? ==> r.value.width == o.width)
    // an absent value takes the default
    ensures r.Success? ==>
              && (o.autostart.Undefined? ==> r.value.autostart == Value(DefaultAutostart))
              && (o.height.Undefined? ==> r.value.height == Value(DefaultHeight))
              && (o.questions.Undefined? ==> r.value.questions == Value([]))
              && (o.srt.Undefined? ==> r.value.srt == Null)
              && (o.swf.Undefined? ==> r.value.swf == Value(DefaultSwf))
              && (o.title.Undefined? ==> r.value.title == Value(DefaultTitle))
              && (o.width.Undefined? ==> r.value.width == Value(DefaultWidth))
    // the fields the constructor neither checks nor defaults pass through
    ensures r.Success? ==>
              && r.value.playerContainer == o.playerContainer
              && r.value.notificationsContainer == o.notificationsContainer
              && r.value.video == o.video
              && r.value.transcriptContainer == o.transcriptContainer
              && r.value.questionContainer == o.questionContainer
              && r.value.checkUrl == o.checkUrl
  {
    if !TruthyString(o.playerContainer) then Failure(NoPlayerContainer)
    else if !TruthyString(o.notificationsContainer) then Failure(NoNotificationsContainer)
    else if !TruthyString(o.video) then Failure(NoVideo)
    else
      var srt := if o.srt.Undefined? then Null else o.srt;
      Success(o.(
        autostart := OrDefault(o.autostart, DefaultAutostart),
        height := OrDefault(o.height, DefaultHeight),
        questions := OrDefault(o.questions, []),
        srt := srt,
        swf := OrDefault(o.swf, DefaultSwf),
        title := OrDefault(o.title, DefaultTitle),
        width := OrDefault(o.width, DefaultWidth)))
  }

  /** Normalised options are a fixed point: constructing a second player from
      the object a first one has already normalised changes nothing. */
  lemma NormalizeIdempotent(o: Options)
    requires Normalize(o).Success?
    ensures Normalize(Normalize(o).value) == Normalize(o)
  {
  }

  /** Exactly the normalised records are left unchanged by the constructor. */
  lemma NormalizeFixedPoints(o: Options)
    ensures Normalize(o) == Success(o) <==> Normalised(o)
  {
  }

  /** The questions the player iterates over: `_.each` and `_.find` treat a
      `null` list as empty. */
  function QuestionsOf(o: Options): seq<TimedQuestion> {
    if o.questions.Value? then o.questions.value else []
  }
}
