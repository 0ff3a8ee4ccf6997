/** `CS50.Video`: the player object that ties the options, the notification
    list and the transcript together and reacts to the media element's
    `timeupdate` events and to the user's clicks. The media element itself is
    represented by the requests the object sends it. */
module VideoPlayer {
  import opened Js
  import opened Questions
  import opened Options
  import opened Notifications
  import opened Srt
  import opened Transcript

  /** A call on the media element: `play()`, `pause()`, `setCurrentTime(t)`. */
  datatype PlayerRequest = Play | Pause | Seek(second: nat)

  class Video {
    const options: Options
    const notifications: NotificationList
    const transcript: TranscriptView
    /** The calls made on the media element, oldest first. */
    var requests: seq<PlayerRequest>
    /** The media element's `success` callback has run: `timeupdate` is heard. */
    var ready: bool
    /** The subtitle request is out and its reply has not arrived. */
    var fetchPending: bool
    /** `.flip-container` carries `flipped`: the question side is showing. */
    var flipped: bool
    /** The navigation bar's back button is showing. */
    var backVisible: bool
    /** The question rendered on the back of the player, if any. */
    var flipQuestion: Option<QuestionData>
    /** The question rendered in the question panel, if any. */
    var panelQuestion: Option<QuestionData>

    ghost predicate Valid()
      reads this, notifications, transcript
    {
      && Normalised(options)
      && notifications.Valid() && notifications.questions == QuestionsOf(options)
      && transcript.Valid()
      && (fetchPending ==> transcript.lines == [] && !transcript.trailingBreak && !transcript.handlersInstalled)
      && (!fetchPending && !TruthyString(options.transcriptContainer) ==>
            transcript.lines == [] && !transcript.handlersInstalled)
      && (fetchPending ==> TruthyString(options.srt))
    }

    /** The constructor after its option checks: the player, the empty
        notification table and the subtitle request, sent when `srt` is set. */
    constructor (options: Options)
      requires Normalised(options)
      ensures Valid()
      ensures this.options == options && fresh(notifications) && fresh(transcript)
      ensures notifications.rows == [] && transcript.lines == [] && transcript.highlighted == []
      ensures !transcript.trailingBreak && !transcript.handlersInstalled && !transcript.autoSeekDisabled
      ensures requests == [] && !ready && !flipped && !backVisible
      ensures flipQuestion == None && panelQuestion == None
      ensures fetchPending == TruthyString(options.srt)
    {
      this.options := options;
      notifications := new NotificationList(QuestionsOf(options));
      transcript := new TranscriptView();
      requests := [];
      ready := false;
      fetchPending := TruthyString(options.srt);
      flipped := false;
      backVisible := false;
      flipQuestion := None;
      panelQuestion := None;
    }

    /** `new CS50.Video(raw)`: throws on a missing required option, otherwise
        builds the player over the normalised options. */
    static method Create(raw: Options) returns (r: Result<Video, ConfigError>)
      ensures Normalize(raw).Failure? ==> r == Failure(Normalize(raw).error)
      ensures Normalize(raw).Success? ==>
                && r.Success? && fresh(r.value) && r.value.Valid()
                && fresh(r.value.notifications) && fresh(r.value.transcript)
                && r.value.options == Normalize(raw).value
                && r.value.requests == [] && r.value.notifications.rows == []
                && r.value.fetchPending == TruthyString(Normalize(raw).value.srt)
                && !r.value.ready && !r.value.flipped && !r.value.backVisible
                && r.value.flipQuestion == None && r.value.panelQuestion == None
                && r.value.transcript.lines == [] && r.value.transcript.highlighted == []
                && !r.value.transcript.trailingBreak && !r.value.transcript.handlersInstalled
                && !r.value.transcript.autoSeekDisabled
    {
      match Normalize(raw)
      case Failure(e) =>
        r := Failure(e);
      case Success(o) =>
        var v := new Video(o);
        r := Success(v);
    }

    /** The media element's `success` callback: from now on `timeupdate` is
        handled, and playback starts when `autostart` is truthy. */
    method PlayerReady()
      requires Valid()
      modifies this
      ensures Valid() && ready
      ensures requests == old(requests) + (if TruthyBool(options.autostart) then [Play] else [])
      ensures fetchPending == old(fetchPending) && flipped == old(flipped) && backVisible == old(backVisible)
      ensures flipQuestion == old(flipQuestion) && panelQuestion == old(panelQuestion)
    {
      ready := true;
      if TruthyBool(options.autostart) {
        requests := requests + [Play];
      }
    }

    /** A `timeupdate` at playback position `second` (already floored):
        offer the questions due now, then move the transcript highlight. */
    method TimeUpdate(second: nat) returns (scrolled: bool)
      requires Valid()
      modifies notifications, transcript
      ensures Valid()
      ensures !ready ==> notifications.rows == old(notifications.rows) && !scrolled
      ensures !ready ==> transcript.highlighted == old(transcript.highlighted)
      ensures ready ==> notifications.rows == Ticked(old(notifications.rows), QuestionsOf(options), second)
      ensures ready && transcript.HasLineAt(second) ==>
                forall i :: 0 <= i < |transcript.lines| ==>
                  (transcript.highlighted[i] <==> transcript.lines[i].start == second)
      ensures ready && !transcript.HasLineAt(second) ==> transcript.highlighted == old(transcript.highlighted)
      ensures scrolled <==> ready && transcript.HasLineAt(second) && !transcript.autoSeekDisabled
      ensures transcript.lines == old(transcript.lines)
      ensures transcript.handlersInstalled == old(transcript.handlersInstalled)
      ensures transcript.trailingBreak == old(transcript.trailingBreak)
      ensures transcript.autoSeekDisabled == old(transcript.autoSeekDisabled)
    {
      scrolled := false;
      if ready {
        notifications.Tick(second);
        scrolled := transcript.UpdateHighlight(second);
      }
    }

    /** A click on the back button: hide it, resume playback, flip back. */
    method BackClicked()
      requires Valid()
      modifies this
      ensures Valid()
      ensures requests == old(requests) + [Play]
      ensures !backVisible && !flipped
      ensures flipQuestion == old(flipQuestion) && panelQuestion == old(panelQuestion)
      ensures fetchPending == old(fetchPending) && ready == old(ready)
    {
      backVisible := false;
      requests := requests + [Play];
      flipped := false;
    }

    /** A click on the panel's close button: the panel question goes away. */
    method PanelClosed()
      requires Valid()
      modifies this
      ensures Valid()
      ensures panelQuestion == None
      ensures requests == old(requests) && flipped == old(flipped) && backVisible == old(backVisible)
      ensures flipQuestion == old(flipQuestion)
      ensures fetchPending == old(fetchPending) && ready == old(ready)
    {
      panelQuestion := None;
    }

    /** A click on the link of notification row `k`: `showQuestion` with the
        row's id, then the row is removed. A flip question pauses the video,
        closes the panel and turns the player over with the back button
        showing; a panel question clicks the back button (which resumes
        playback and flips back) and opens in the question container. */
    method ClickNotification(k: nat) returns (d: Display)
      requires Valid() && k < |notifications.rows|
      modifies this, notifications
      ensures Valid()
      ensures d == Show(QuestionsOf(options), old(notifications.rows)[k])
      ensures notifications.rows == old(notifications.rows)[..k] + old(notifications.rows)[k + 1..]
      ensures d.NoDisplay? ==>
                && requests == old(requests) && flipped == old(flipped) && backVisible == old(backVisible)
                && flipQuestion == old(flipQuestion) && panelQuestion == old(panelQuestion)
      ensures d.FlipDisplay? ==>
                && requests == old(requests) + [Pause] && flipped && backVisible
                && flipQuestion == Some(d.shown.question) && panelQuestion == None
      ensures d.PanelDisplay? ==>
                && requests == old(requests) + [Play] && !flipped && !backVisible
                && flipQuestion == old(flipQuestion)
                && panelQuestion == (if TruthyString(options.questionContainer) then Some(d.shown.question) else None)
      ensures fetchPending == old(fetchPending) && ready == old(ready)
    {
      d := notifications.Click(k);
      match d
      case NoDisplay =>
      case FlipDisplay(q) =>
        requests := requests + [Pause];
        PanelClosed();
        flipQuestion := Some(q.question);
        flipped := true;
        backVisible := true;
      case PanelDisplay(q) =>
        BackClicked();
        panelQuestion := if TruthyString(options.questionContainer) then Some(q.question) else None;
    }

    /** The reply to the subtitle request: with a transcript container the
        transcript is built from it; without one the reply is dropped. */
    method SubtitlesArrived(response: string)
      requires Valid() && fetchPending
      modifies this, transcript
      ensures Valid() && !fetchPending
      ensures TruthyString(options.transcriptContainer) && Parse(response).Success? ==>
                transcript.lines == Parse(response).value && !transcript.trailingBreak
                && transcript.handlersInstalled
      ensures TruthyString(options.transcriptContainer) && Parse(response).Failure? ==>
                && transcript.lines == Parse(response).error.emitted
                && transcript.trailingBreak == Parse(response).error.breakAppended
                && !transcript.handlersInstalled
      ensures !TruthyString(options.transcriptContainer) ==>
                && transcript.lines == old(transcript.lines) == []
                && transcript.highlighted == old(transcript.highlighted)
                && transcript.trailingBreak == old(transcript.trailingBreak)
                && transcript.handlersInstalled == old(transcript.handlersInstalled) == false
                && transcript.autoSeekDisabled == old(transcript.autoSeekDisabled)
      ensures !transcript.autoSeekDisabled
      ensures forall i :: 0 <= i < |transcript.highlighted| ==> !transcript.highlighted[i]
      ensures requests == old(requests) && flipped == old(flipped) && backVisible == old(backVisible)
      ensures flipQuestion == old(flipQuestion) && panelQuestion == old(panelQuestion) && ready == old(ready)
    {
      fetchPending := false;
      if TruthyString(options.transcriptContainer) {
        transcript.Load(response);
      }
    }

    /** A click on transcript line `k`: seek to its second once the
        transcript's handlers are installed. */
    method ClickTranscriptLine(k: nat)
      requires Valid() && k < |transcript.lines|
      modifies this
      ensures Valid()
      ensures requests == old(requests) + (if transcript.handlersInstalled then [Seek(transcript.lines[k].start)] else [])
      ensures fetchPending == old(fetchPending) && flipped == old(flipped) && backVisible == old(backVisible)
      ensures flipQuestion == old(flipQuestion) && panelQuestion == old(panelQuestion) && ready == old(ready)
    {
      var seek := transcript.ClickLine(k);
      if seek.Some? {
        requests := requests + [Seek(seek.value)];
      }
    }
  }
}
