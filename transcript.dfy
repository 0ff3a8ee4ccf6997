/** The transcript panel that `loadSrt` fills in: one link per parsed line,
    the highlight `updateTranscriptHighlight` moves to the lines of the
    current second, and the scroll flag that suspends auto-scrolling. */
module Transcript {
  import opened Js
  import opened Srt

  class TranscriptView {
    /** The links appended so far, in payload order. */
    var lines: seq<Line>
    /** The parse aborted after appending the failing block's break marker. */
    var trailingBreak: bool
    /** Which links carry the `highlight` class. */
    var highlighted: seq<bool>
    /** The click and scroll handlers, installed once the whole payload parsed. */
    var handlersInstalled: bool
    /** `disableTranscriptAutoSeek`; `undefined` before installation reads as false. */
    var autoSeekDisabled: bool

    /** Every highlighted link shows the same second, and the flag can only be
        raised by an installed scroll handler. */
    ghost predicate Valid()
      reads this
    {
      && |highlighted| == |lines|
      && (forall i, j :: 0 <= i < |lines| && 0 <= j < |lines| && highlighted[i] && highlighted[j] ==>
            lines[i].start == lines[j].start)
      && (!handlersInstalled ==> !autoSeekDisabled)
    }

    constructor ()
      ensures Valid()
      ensures lines == [] && highlighted == [] && !trailingBreak
      ensures !handlersInstalled && !autoSeekDisabled
    {
      lines := [];
      trailingBreak := false;
      highlighted := [];
      handlersInstalled := false;
      autoSeekDisabled := false;
    }

    /** The body of the success callback of the subtitle request, for a
        transcript container that is present: every block is parsed in turn
        (its break marker and link appended); a block whose stamp is missing
        throws, which leaves what was appended so far and installs no handler. */
    method Load(response: string)
      requires Valid()
      requires lines == [] && !trailingBreak && !handlersInstalled
      modifies this
      ensures Valid()
      ensures Parse(response).Success? ==>
                lines == Parse(response).value && !trailingBreak && handlersInstalled
      ensures Parse(response).Failure? ==>
                && lines == Parse(response).error.emitted
                && trailingBreak == Parse(response).error.breakAppended
                && !handlersInstalled
      ensures !autoSeekDisabled
      ensures forall i :: 0 <= i < |highlighted| ==> !highlighted[i]
    {
      var blocks := Blocks(response);
      ghost var outcomes := Outcomes(blocks);
      highlighted := [];
      var i := 0;
      var failed := false;
      while i < |blocks| && !failed
        invariant 0 <= i <= |blocks|
        invariant |highlighted| == |lines|
        invariant forall k :: 0 <= k < |highlighted| ==> !highlighted[k]
        invariant !failed ==> Collect(outcomes[..i]) == Success(lines) && !trailingBreak
        invariant failed ==> 0 < i && Collect(outcomes[..i]) == Failure(ParseFailure(i - 1, lines, trailingBreak))
        invariant !handlersInstalled && !autoSeekDisabled
      {
        CollectPrefix(outcomes, i);
        var outcome := ParseBlock(blocks[i]);
        assert outcome == outcomes[i];
        failed := AppendBlock(outcome, i);
        i := i + 1;
      }
      if failed {
        CollectStopped(outcomes, i);
      } else {
        assert outcomes[..i] == outcomes;
        handlersInstalled := true;
        autoSeekDisabled := false;
      }
    }

    /** The body of the loop over the blocks: the link of a parsed block is
        appended (not highlighted), and a block without a stamp leaves only
        its break marker and stops the loop. */
    method AppendBlock(outcome: BlockOutcome, ghost n: nat) returns (stopped: bool)
      requires |highlighted| == |lines| && !trailingBreak
      requires forall k :: 0 <= k < |highlighted| ==> !highlighted[k]
      modifies this
      ensures |highlighted| == |lines|
      ensures forall k :: 0 <= k < |highlighted| ==> !highlighted[k]
      ensures stopped == outcome.Unstamped?
      ensures Step(Success(old(lines)), n, outcome)
                == if stopped then Failure(ParseFailure(n, lines, trailingBreak)) else Success(lines)
      ensures !stopped ==> !trailingBreak
      ensures handlersInstalled == old(handlersInstalled) && autoSeekDisabled == old(autoSeekDisabled)
    {
      stopped := false;
      match outcome {
        case Skipped =>
        case Unstamped(brk) =>
          trailingBreak := brk;
          stopped := true;
        case Parsed(line) =>
          lines := lines + [line];
          highlighted := highlighted + [false];
      }
    }

    /** Whether some link shows `second` (the jQuery lookup by `data-time`). */
    predicate HasLineAt(second: nat)
      reads this
    {
      exists i :: 0 <= i < |lines| && lines[i].start == second
    }

    /** A `timeupdate` at `second`: when some link shows that second, the
        highlight moves to exactly those links and the panel scrolls to them
        unless the user is scrolling; otherwise nothing changes. */
    method UpdateHighlight(second: nat) returns (scrolled: bool)
      requires Valid()
      modifies this
      ensures Valid()
      ensures lines == old(lines) && trailingBreak == old(trailingBreak)
      ensures handlersInstalled == old(handlersInstalled) && autoSeekDisabled == old(autoSeekDisabled)
      ensures HasLineAt(second) ==>
                |highlighted| == |lines| && forall i :: 0 <= i < |lines| ==> (highlighted[i] <==> lines[i].start == second)
      ensures !HasLineAt(second) ==> highlighted == old(highlighted)
      ensures scrolled <==> HasLineAt(second) && !autoSeekDisabled
    {
      scrolled := false;
      if HasLineAt(second) {
        highlighted := seq(|lines|, i requires 0 <= i < |lines| reads this => lines[i].start == second);
        scrolled := !autoSeekDisabled;
      }
    }

    /** `scrollstart` on the transcript container. */
    method ScrollStart()
      requires Valid()
      modifies this
      ensures Valid()
      ensures autoSeekDisabled == (old(autoSeekDisabled) || handlersInstalled)
      ensures lines == old(lines) && highlighted == old(highlighted) && trailingBreak == old(trailingBreak)
      ensures handlersInstalled == old(handlersInstalled)
    {
      if handlersInstalled {
        autoSeekDisabled := true;
      }
    }

    /** `scrollstop` on the transcript container. */
    method ScrollStop()
      requires Valid()
      modifies this
      ensures Valid()
      ensures !autoSeekDisabled
      ensures lines == old(lines) && highlighted == old(highlighted) && trailingBreak == old(trailingBreak)
      ensures handlersInstalled == old(handlersInstalled)
    {
      if handlersInstalled {
        autoSeekDisabled := false;
      }
    }

    /** A click on link `k` asks the player to seek to its second; before the
        handler is installed the click does nothing. The attribute is a
        non-empty string, so the `if (time)` guard always passes. */
    method ClickLine(k: nat) returns (seek: Option<nat>)
      requires Valid() && k < |lines|
      ensures seek.Some? <==> handlersInstalled
      ensures seek.Some? ==> seek.value == lines[k].start
    {
      if handlersInstalled {
        seek := Some(lines[k].start);
      } else {
        seek := None;
      }
    }
  }
}
