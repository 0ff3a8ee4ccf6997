/** The stand-alone demonstration page: two hard-coded questions, a button
    per question that becomes available, a question side that the player
    flips to, and an answer check on every radio click. */
module Demo {
  import opened Js
  import opened Seqs
  import opened Render

  datatype DemoQuestion = DemoQuestion(timestamp: int, text: string, choices: seq<string>, answer: int)

  /** The page's questions. */
  const DemoQuestions: seq<DemoQuestion> := [
    DemoQuestion(0, "Is David wearing a v-neck?", ["Yes", "No"], 0),
    DemoQuestion(5, "How many TFs are there?", ["100", "40", "50", "10"], 2)
  ]

  predicate DueAt(qs: seq<DemoQuestion>, i: nat, second: nat)
    requires i < |qs|
  {
    qs[i].timestamp == second
  }

  /** The buttons after `checkQuestionAvailable` has looked at the first `n`
      questions: each due question without a button gets one at the end. */
  function Appended(buttons: seq<nat>, qs: seq<DemoQuestion>, n: nat, second: nat): seq<nat>
    requires n <= |qs|
    decreases n
  {
    if n == 0 then buttons
    else
      var b := Appended(buttons, qs, n - 1, second);
      if DueAt(qs, n - 1, second) && n - 1 !in b then b + [n - 1] else b
  }

  /** The indices appended, in the order they are appended. */
  function NewButtons(buttons: seq<nat>, qs: seq<DemoQuestion>, n: nat, second: nat): seq<nat>
    requires n <= |qs|
    decreases n
  {
    if n == 0 then []
    else
      var b := NewButtons(buttons, qs, n - 1, second);
      if DueAt(qs, n - 1, second) && n - 1 !in buttons then b + [n - 1] else b
  }

  /** A button exists afterwards exactly when it existed before or its
      question is due now. */
  lemma {:induction false} AppendedMembers(buttons: seq<nat>, qs: seq<DemoQuestion>, n: nat, second: nat, x: nat)
    requires n <= |qs|
    ensures x in Appended(buttons, qs, n, second) <==> x in buttons || (x < n && DueAt(qs, x, second))
    decreases n
  {
    if n > 0 {
      AppendedMembers(buttons, qs, n - 1, second, x);
    }
  }

  /** New buttons go after the existing ones, which stay as they were, and
      the new ones come in question order. */
  lemma {:induction false} AppendedShape(buttons: seq<nat>, qs: seq<DemoQuestion>, n: nat, second: nat)
    requires n <= |qs|
    ensures Appended(buttons, qs, n, second) == buttons + NewButtons(buttons, qs, n, second)
    ensures forall i, j :: 0 <= i < j < |NewButtons(buttons, qs, n, second)| ==>
              NewButtons(buttons, qs, n, second)[i] < NewButtons(buttons, qs, n, second)[j]
    ensures forall i :: 0 <= i < |NewButtons(buttons, qs, n, second)| ==> NewButtons(buttons, qs, n, second)[i] < n
    decreases n
  {
    if n > 0 {
      AppendedShape(buttons, qs, n - 1, second);
      var b := Appended(buttons, qs, n - 1, second);
      if DueAt(qs, n - 1, second) {
        AppendedMembers(buttons, qs, n - 1, second, n - 1);
        assert n - 1 in b <==> n - 1 in buttons;
        if n - 1 !in buttons {
          assert buttons + (NewButtons(buttons, qs, n - 1, second) + [n - 1]) ==
                 (buttons + NewButtons(buttons, qs, n - 1, second)) + [n - 1];
        }
      }
    }
  }

  lemma {:induction false} AppendedNoDup(buttons: seq<nat>, qs: seq<DemoQuestion>, n: nat, second: nat)
    requires n <= |qs| && NoDup(buttons)
    ensures NoDup(Appended(buttons, qs, n, second))
    decreases n
  {
    if n > 0 {
      AppendedNoDup(buttons, qs, n - 1, second);
    }
  }

  /** A second tick at the same second adds nothing. */
  lemma AppendedIdempotent(buttons: seq<nat>, qs: seq<DemoQuestion>, second: nat)
    ensures Appended(Appended(buttons, qs, |qs|, second), qs, |qs|, second) == Appended(buttons, qs, |qs|, second)
  {
    var b := Appended(buttons, qs, |qs|, second);
    forall i | 0 <= i < |qs| && DueAt(qs, i, second) ensures i in b {
      AppendedMembers(buttons, qs, |qs|, second, i);
    }
    AppendedUnchanged(b, qs, |qs|, second);
  }

  lemma {:induction false} AppendedUnchanged(buttons: seq<nat>, qs: seq<DemoQuestion>, n: nat, second: nat)
    requires n <= |qs|
    requires forall i :: 0 <= i < n && DueAt(qs, i, second) ==> i in buttons
    ensures Appended(buttons, qs, n, second) == buttons
    decreases n
  {
    if n > 0 {
      AppendedUnchanged(buttons, qs, n - 1, second);
    }
  }

  /** What the radio handler shows: `question.answer == $(this).val()`, the
      same loose comparison as the multiple-choice widget's. */
  function DemoCorrect(q: DemoQuestion, choice: nat): bool {
    ChoiceCorrect(Index(q.answer), Some(choice))
  }

  /** The first question is answered by `Yes`, the second by `50`. */
  lemma DemoAnswers()
    ensures DemoCorrect(DemoQuestions[0], 0) && !DemoCorrect(DemoQuestions[0], 1)
    ensures forall c :: 0 <= c < 4 ==> (DemoCorrect(DemoQuestions[1], c) <==> DemoQuestions[1].choices[c] == "50")
  {
    MultipleChoiceCorrect(0, Some(0));
    MultipleChoiceCorrect(0, Some(1));
    forall c | 0 <= c < 4 ensures DemoCorrect(DemoQuestions[1], c) <==> DemoQuestions[1].choices[c] == "50" {
      MultipleChoiceCorrect(2, Some(c));
    }
  }

  /** The page state the handlers change. */
  class DemoPage {
    const questions: seq<DemoQuestion>
    /** The `data-index` of each show-question button, in page order. */
    var buttons: seq<nat>
    /** `#question-content`'s `data-question-id`: the question shown. */
    var current: Option<nat>
    /** The alerts under the choices, as success flags. */
    var alerts: seq<bool>
    /** The back-to-video button is in the question content. */
    var backButton: bool
    /** `#flip-container` carries `flipped`. */
    var flipped: bool
    /** The media element's `success` callback has run. */
    var ready: bool
    /** The calls made on the media element, oldest first: `true` for `play()`,
        `false` for `pause()`. */
    var requests: seq<bool>

    ghost predicate Valid()
      reads this
    {
      && NoDup(buttons)
      && (forall i :: 0 <= i < |buttons| ==> buttons[i] < |questions|)
      && (current.Some? ==> current.value < |questions|)
      && |alerts| <= 1
      && (current.None? ==> alerts == [] && !backButton)
    }

    constructor ()
      ensures Valid()
      ensures questions == DemoQuestions && buttons == [] && current == None
      ensures alerts == [] && !backButton && !flipped && !ready && requests == []
    {
      questions := DemoQuestions;
      buttons := [];
      current := None;
      alerts := [];
      backButton := false;
      flipped := false;
      ready := false;
      requests := [];
    }

    /** The media element's `success` callback: listen and start playing. */
    method PlayerReady()
      requires Valid()
      modifies this
      ensures Valid() && ready
      ensures requests == old(requests) + [true]
      ensures buttons == old(buttons) && current == old(current) && alerts == old(alerts)
      ensures backButton == old(backButton) && flipped == old(flipped)
    {
      ready := true;
      requests := requests + [true];
    }

    /** `checkQuestionAvailable` at the floored second `second`. */
    method Tick(second: nat)
      requires Valid()
      modifies this
      ensures Valid()
      ensures buttons == (if ready then Appended(old(buttons), questions, |questions|, second) else old(buttons))
      ensures current == old(current) && alerts == old(alerts) && backButton == old(backButton)
      ensures flipped == old(flipped) && requests == old(requests) && ready == old(ready)
    {
      if !ready {
        return;
      }
      for i := 0 to |questions|
        invariant buttons == Appended(old(buttons), questions, i, second)
        invariant current == old(current) && alerts == old(alerts) && backButton == old(backButton)
        invariant flipped == old(flipped) && requests == old(requests) && ready
      {
        if questions[i].timestamp == second && i !in buttons {
          buttons := buttons + [i];
        }
      }
      AppendedNoDup(old(buttons), questions, |questions|, second);
      forall i | 0 <= i < |buttons| ensures buttons[i] < |questions| {
        AppendedMembers(old(buttons), questions, |questions|, second, buttons[i]);
        if buttons[i] in old(buttons) {
          var j :| 0 <= j < |old(buttons)| && old(buttons)[j] == buttons[i];
        }
      }
    }

    /** A click on show-question button `k`: its question is shown (the
        content is rebuilt, so earlier alerts and the back button go), the
        video pauses, the player flips, and the button is removed. */
    method ClickShow(k: nat)
      requires Valid() && k < |buttons|
      modifies this
      ensures Valid()
      ensures current == Some(old(buttons)[k])
      ensures buttons == old(buttons)[..k] + old(buttons)[k + 1..]
      ensures old(buttons)[k] !in buttons
      ensures alerts == [] && !backButton && flipped
      ensures requests == old(requests) + [false] && ready == old(ready)
    {
      var index := buttons[k];
      current := Some(index);
      alerts := [];
      backButton := false;
      requests := requests + [false];
      flipped := true;
      ghost var before := buttons;
      buttons := buttons[..k] + buttons[k + 1..];
      forall i | 0 <= i < |buttons| ensures buttons[i] != index && buttons[i] < |questions| {
        if i < k {
          assert buttons[i] == before[i];
        } else {
          assert buttons[i] == before[i + 1];
        }
      }
      forall i, j | 0 <= i < j < |buttons| ensures buttons[i] != buttons[j] {
        var i' := if i < k then i else i + 1;
        var j' := if j < k then j else j + 1;
        assert buttons[i] == before[i'] && buttons[j] == before[j'];
      }
    }

    /** A click on radio button `choice` of the question shown: the earlier
        alert is replaced by this verdict, and the back-to-video button is
        added unless it is already there. */
    method Choose(choice: nat)
      requires Valid() && current.Some? && choice < |questions[current.value].choices|
      modifies this
      ensures Valid()
      ensures current == old(current)
      ensures alerts == [DemoCorrect(questions[old(current).value], choice)]
      ensures backButton
      ensures buttons == old(buttons) && flipped == old(flipped)
      ensures requests == old(requests) && ready == old(ready)
    {
      alerts := [DemoCorrect(questions[current.value], choice)];
      if !backButton {
        backButton := true;
      }
    }

    /** A click on the back-to-video button: play and flip back. */
    method BackToVideo()
      requires Valid()
      modifies this
      ensures Valid()
      ensures requests == old(requests) + [true] && !flipped
      ensures buttons == old(buttons) && current == old(current) && alerts == old(alerts)
      ensures backButton == old(backButton) && ready == old(ready)
    {
      requests := requests + [true];
      flipped := false;
    }
  }
}
