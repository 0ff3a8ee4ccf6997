/** `CS50.Video.Render`: the question widgets. What is modelled is the state
    a widget keeps (the choice selected, the typed text, whether the submit
    button shows), how a submission is answered (locally or by the checking
    server), and the alert `displayCorrectness` leaves behind. */
module Render {
  import opened Js
  import opened Text
  import opened Questions

  // ---------------------------------------------------------------------------
  // Alerts

  /** A node of the question content: a correctness alert (success or error),
      or any other element, named by its tag. */
  datatype Node = Alert(success: bool) | Element(tag: string)

  /** The nodes left when every alert is removed, in their order. */
  function WithoutAlerts(nodes: seq<Node>): (r: seq<Node>)
    ensures forall i :: 0 <= i < |r| ==> !r[i].Alert?
    ensures |r| <= |nodes|
    decreases |nodes|
  {
    if nodes == [] then []
    else if nodes[|nodes| - 1].Alert? then WithoutAlerts(nodes[..|nodes| - 1])
    else WithoutAlerts(nodes[..|nodes| - 1]) + [nodes[|nodes| - 1]]
  }

  function AlertCount(nodes: seq<Node>): nat
    decreases |nodes|
  {
    if nodes == [] then 0
    else AlertCount(nodes[..|nodes| - 1]) + (if nodes[|nodes| - 1].Alert? then 1 else 0)
  }

  /** Removing alerts keeps every other element in order: the removal
      distributes over concatenation and leaves alert-free content alone. */
  lemma {:induction false} WithoutAlertsAppend(a: seq<Node>, b: seq<Node>)
    ensures WithoutAlerts(a + b) == WithoutAlerts(a) + WithoutAlerts(b)
    decreases |b|
  {
    if b == [] {
      assert a + b == a;
    } else {
      var b' := b[..|b| - 1];
      WithoutAlertsAppend(a, b');
      assert (a + b)[..|a + b| - 1] == a + b';
      assert (a + b)[|a + b| - 1] == b[|b| - 1];
    }
  }

  lemma {:induction false} WithoutAlertsKeepsElements(nodes: seq<Node>)
    requires forall i :: 0 <= i < |nodes| ==> !nodes[i].Alert?
    ensures WithoutAlerts(nodes) == nodes
    decreases |nodes|
  {
    if nodes != [] {
      WithoutAlertsKeepsElements(nodes[..|nodes| - 1]);
    }
  }

  lemma {:induction false} NoAlertsCounted(nodes: seq<Node>)
    requires forall i :: 0 <= i < |nodes| ==> !nodes[i].Alert?
    ensures AlertCount(nodes) == 0
    decreases |nodes|
  {
    if nodes != [] {
      NoAlertsCounted(nodes[..|nodes| - 1]);
    }
  }

  /** The content `displayCorrectness` produces from `nodes`. */
  function WithVerdict(nodes: seq<Node>, correct: bool): seq<Node> {
    WithoutAlerts(nodes) + [Alert(correct)]
  }

  /** After `displayCorrectness` there is exactly one alert, it comes last,
      it is the success alert exactly when the answer was correct, and the
      other elements are the earlier ones in their order. */
  lemma VerdictShape(nodes: seq<Node>, correct: bool)
    ensures AlertCount(WithVerdict(nodes, correct)) == 1
    ensures var r := WithVerdict(nodes, correct); r[|r| - 1] == Alert(correct)
    ensures WithoutAlerts(WithVerdict(nodes, correct)) == WithoutAlerts(nodes)
  {
    var w := WithoutAlerts(nodes);
    var r := WithVerdict(nodes, correct);
    NoAlertsCounted(w);
    assert r[..|r| - 1] == w;
    WithoutAlertsAppend(w, [Alert(correct)]);
    WithoutAlertsKeepsElements(w);
    assert [Alert(correct)][..0] == [];
  }

  /** Showing a second verdict replaces the first: only the latest counts. */
  lemma VerdictReplaces(nodes: seq<Node>, first: bool, second: bool)
    ensures WithVerdict(WithVerdict(nodes, first), second) == WithVerdict(nodes, second)
  {
    VerdictShape(nodes, first);
  }

  /** The element alerts are shown in: the player's `.question-content`. */
  class AlertArea {
    var content: seq<Node>

    constructor (content: seq<Node>)
      ensures this.content == content
    {
      this.content := content;
    }

    /** `displayCorrectness(correct, video)`. */
    method DisplayCorrectness(correct: bool)
      modifies this
      ensures content == WithVerdict(old(content), correct)
    {
      var kept: seq<Node> := [];
      for i := 0 to |content|
        invariant kept == WithoutAlerts(content[..i])
      {
        assert content[..i + 1][..i] == content[..i];
        if !content[i].Alert? {
          kept := kept + [content[i]];
        }
      }
      assert content[..|content|] == content;
      content := kept + [Alert(correct)];
    }
  }

  // ---------------------------------------------------------------------------
  // Local or remote checking

  /** `remote === undefined || remote === false`: strict comparison, so a
      `null` flag asks the server. */
  predicate IsLocal(remote: JsValue<bool>) {
    remote.Undefined? || remote == Value(false)
  }

  /** The answer that goes to the server: the selected radio's value
      (`undefined` when none is checked), the typed text, or the typed text
      as `parseFloat` reads it. */
  datatype Sent = ChoiceValue(selected: Option<nat>) | TextValue(text: string) | NumberValue(typed: string)

  /** The JSONP request `checkRemote` sends: `checkUrl?id=...&answer=...`. */
  datatype CheckRequest = CheckRequest(url: string, id: QuestionId, answer: Sent)

  /** What pressing submit does: a verdict on the spot, a request to the
      checking server, or the error thrown for a missing `checkUrl`. */
  datatype Submission = Local(correct: bool) | Remote(request: CheckRequest) | MissingCheckUrl

  /** `checkRemote`: throws unless `checkUrl` is set, else sends the id and answer. */
  function CheckRemote(checkUrl: JsValue<string>, id: QuestionId, answer: Sent): (r: Submission)
    ensures r.MissingCheckUrl? <==> !TruthyString(checkUrl)
    ensures !r.Local?
    ensures r.Remote? ==> r.request.url == checkUrl.value && r.request.url != ""
    ensures r.Remote? ==> r.request.id == id && r.request.answer == answer
  {
    if !TruthyString(checkUrl) then MissingCheckUrl
    else Remote(CheckRequest(checkUrl.value, id, answer))
  }

  /** The submit handler's branch: the local verdict, or `checkRemote`. */
  function Dispatch(remote: JsValue<bool>, verdict: bool, checkUrl: JsValue<string>, id: QuestionId, answer: Sent): (r: Submission)
    ensures r.Local? <==> IsLocal(remote)
    ensures r.Local? ==> r.correct == verdict
    ensures !r.Local? ==> r == CheckRemote(checkUrl, id, answer)
  {
    if IsLocal(remote) then Local(verdict) else CheckRemote(checkUrl, id, answer)
  }

  /** Only an absent flag or `false` checks locally; `true` and `null` send
      the answer away, and then a missing `checkUrl` throws. */
  lemma RemoteFlags(verdict: bool, checkUrl: JsValue<string>, id: QuestionId, answer: Sent)
    ensures Dispatch(Undefined, verdict, checkUrl, id, answer) == Local(verdict)
    ensures Dispatch(Value(false), verdict, checkUrl, id, answer) == Local(verdict)
    ensures Dispatch(Null, verdict, checkUrl, id, answer).MissingCheckUrl? <==> !TruthyString(checkUrl)
    ensures Dispatch(Value(true), verdict, checkUrl, id, answer).MissingCheckUrl? <==> !TruthyString(checkUrl)
  {
  }

  // ---------------------------------------------------------------------------
  // Multiple choice and true/false

  /** `data.answer` of a choice question: an index, or (for true/false) a boolean. */
  datatype Expected = Index(n: int) | Flag(b: bool)

  /** `ToNumber` of the expected value, as loose equality applies it. */
  function ExpectedNumber(e: Expected): int {
    match e
    case Index(n) => n
    case Flag(b) => if b then 1 else 0
  }

  /** `data.answer == $checked.val()`: the checked radio's value is its index
      written in decimal, `undefined` when none is checked; comparing a number
      or boolean with it converts both sides to numbers. */
  function ChoiceCorrect(e: Expected, selected: Option<nat>): bool {
    match selected
    case None => false
    case Some(k) =>
      DecimalStringValue(k);
      ExpectedNumber(e) == DigitsValue(DecimalString(k))
  }

  /** A multiple-choice answer is right exactly when the index checked is the
      expected one. */
  lemma MultipleChoiceCorrect(answer: int, selected: Option<nat>)
    ensures ChoiceCorrect(Index(answer), selected) <==> selected.Some? && selected.value == answer
  {
    if selected.Some? {
      DecimalStringValue(selected.value);
    }
  }

  datatype ChoiceData = ChoiceData(id: QuestionId, choices: seq<string>, expected: Expected)

  /** The data `TrueFalse` hands to `MultipleChoice`: choices `True` and
      `False`, and the negated answer as the expected value. */
  function TrueFalseData(id: QuestionId, answer: JsValue<bool>): ChoiceData {
    ChoiceData(id, ["True", "False"], Flag(!TruthyBool(answer)))
  }

  /** With the negated answer, the checked choice is right exactly when its
      label agrees with the answer's truthiness: `True` for a truthy answer,
      `False` otherwise; so exactly one of the two is right. */
  lemma TrueFalseCorrect(id: QuestionId, answer: JsValue<bool>, k: nat)
    requires k < 2
    ensures var d := TrueFalseData(id, answer);
            ChoiceCorrect(d.expected, Some(k)) <==> (d.choices[k] == "True" <==> TruthyBool(answer))
  {
    DecimalStringValue(k);
    assert DigitsValue(DecimalString(k)) == k;
  }

  /** Nothing checked is never right. */
  lemma NothingCheckedIsWrong(e: Expected)
    ensures !ChoiceCorrect(e, None)
  {
  }

  /** A rendered multiple-choice (or true/false) question. */
  class ChoiceWidget {
    const data: ChoiceData
    const remote: JsValue<bool>
    /** The index of the checked radio button, if any. */
    var selected: Option<nat>
    var submitVisible: bool

    constructor (data: ChoiceData, remote: JsValue<bool>)
      ensures this.data == data && this.remote == remote
      ensures selected == None && !submitVisible
    {
      this.data := data;
      this.remote := remote;
      selected := None;
      submitVisible := false;
    }

    /** A click on radio button `k`: it is checked and the submit button shows. */
    method ChoiceClicked(k: nat)
      requires k < |data.choices|
      modifies this
      ensures selected == Some(k) && submitVisible
    {
      selected := Some(k);
      if !submitVisible {
        submitVisible := true;
      }
    }

    /** A click on submit. A local question shows its verdict in `area` at
        once; a remote one sends the checked value and shows nothing yet. */
    method Submit(area: AlertArea, checkUrl: JsValue<string>) returns (s: Submission)
      modifies area
      ensures s == Dispatch(remote, ChoiceCorrect(data.expected, selected), checkUrl, data.id, ChoiceValue(selected))
      ensures s.Local? ==> area.content == WithVerdict(old(area.content), s.correct)
      ensures !s.Local? ==> area.content == old(area.content)
    {
      if IsLocal(remote) {
        var correct := ChoiceCorrect(data.expected, selected);
        area.DisplayCorrectness(correct);
        s := Local(correct);
      } else {
        s := CheckRemote(checkUrl, data.id, ChoiceValue(selected));
      }
    }
  }

  /** The checking server's reply: its verdict is shown like a local one. */
  method RemoteReply(area: AlertArea, correct: bool)
    modifies area
    ensures area.content == WithVerdict(old(area.content), correct)
  {
    area.DisplayCorrectness(correct);
  }

  // ---------------------------------------------------------------------------
  // Free response and numeric

  /** The submit button after a key press, given whether it showed before:
      blank input hides a showing button, anything else shows a hidden one. */
  function NextSubmitVisible(visible: bool, input: string): bool {
    if IsBlank(input) && visible then false
    else if !visible then true
    else visible
  }

  /** Non-blank input always leaves the button showing; blank input hides a
      showing button but shows a hidden one, so the button flips on each
      blank key press. */
  lemma SubmitVisibility(visible: bool, input: string)
    ensures !IsBlank(input) ==> NextSubmitVisible(visible, input)
    ensures IsBlank(input) ==> NextSubmitVisible(visible, input) == !visible
    ensures IsBlank(input) ==> NextSubmitVisible(NextSubmitVisible(visible, input), input) == visible
  {
  }

  /** A rendered free-response question, or a numeric one (which reuses the
      free-response widget and replaces its submit handler). */
  class FreeResponseWidget {
    const id: QuestionId
    const remote: JsValue<bool>
    const numeric: bool
    /** The text in the answer box. */
    var input: string
    var submitVisible: bool

    constructor (id: QuestionId, remote: JsValue<bool>, numeric: bool)
      ensures this.id == id && this.remote == remote && this.numeric == numeric
      ensures input == "" && !submitVisible
    {
      this.id := id;
      this.remote := remote;
      this.numeric := numeric;
      input := "";
      submitVisible := false;
    }

    /** A key-up in the answer box, now holding `value`. */
    method KeyUp(value: string)
      modifies this
      ensures input == value
      ensures submitVisible == NextSubmitVisible(old(submitVisible), value)
    {
      input := value;
      if IsBlank(input) && submitVisible {
        submitVisible := false;
      } else if !submitVisible {
        submitVisible := true;
      }
    }

    /** A click on submit. `verdict` is the local check of the typed text
        (the regular-expression match, or the numeric tolerance band), which
        is not modelled; a remote question sends the text, read as a number
        for a numeric question. */
    method Submit(area: AlertArea, checkUrl: JsValue<string>, verdict: bool) returns (s: Submission)
      modifies area
      ensures s == Dispatch(remote, verdict, checkUrl, id, if numeric then NumberValue(input) else TextValue(input))
      ensures s.Local? ==> area.content == WithVerdict(old(area.content), verdict)
      ensures !s.Local? ==> area.content == old(area.content)
    {
      var sent := if numeric then NumberValue(input) else TextValue(input);
      if IsLocal(remote) {
        area.DisplayCorrectness(verdict);
        s := Local(verdict);
      } else {
        s := CheckRemote(checkUrl, id, sent);
      }
    }
  }

  /** The tolerance `Numeric` assumes when none is given. */
  const DefaultTolerance: real := 1.0

  /** The data object of a numeric question, which `Numeric` updates in place. */
  class NumericData {
    var tolerance: JsValue<real>

    constructor (tolerance: JsValue<real>)
      ensures this.tolerance == tolerance
    {
      this.tolerance := tolerance;
    }

    /** `data.tolerance = (data.tolerance === undefined) ? 1 : data.tolerance`:
        a given tolerance, `null` included, is kept. */
    method ApplyDefaultTolerance()
      modifies this
      ensures old(tolerance).Undefined? ==> tolerance == Value(DefaultTolerance)
      ensures !old(tolerance).Undefined? ==> tolerance == old(tolerance)
    {
      tolerance := OrDefault(tolerance, DefaultTolerance);
    }
  }
}
