/** The SRT transcript parser of `loadSrt`: the payload is cut into
    blank-line–separated blocks (`response.split(/\n\s*\n/)`); a block of two
    or more lines yields one transcript line whose time is the start stamp on
    its second line (hours, minutes and seconds; milliseconds dropped) and
    whose text is the remaining lines joined by spaces. */
module Srt {
  import opened Js
  import opened Text

  /** One transcript entry: a break is drawn before it, it starts at `start`
      seconds (its `data-time`), and it reads `text`. */
  datatype Line = Line(breakBefore: bool, start: nat, text: string)

  datatype Stamp = Stamp(hours: nat, minutes: nat, seconds: nat)

  function Seconds(st: Stamp): nat {
    st.hours * 3600 + st.minutes * 60 + st.seconds
  }

  // ---------------------------------------------------------------------------
  // `response.split(/\n\s*\n/)`

  function SpaceRunEnd(s: string, p: nat): (k: nat)
    requires p <= |s|
    ensures p <= k <= |s|
    ensures forall j :: p <= j < k ==> IsSpace(s[j])
    ensures k == |s| || !IsSpace(s[k])
    decreases |s| - p
  {
    if p < |s| && IsSpace(s[p]) then SpaceRunEnd(s, p + 1) else p
  }

  function LastNewline(s: string, lo: nat, hi: nat): (r: Option<nat>)
    requires lo <= hi <= |s|
    ensures r.Some? ==> lo <= r.value < hi && s[r.value] == '\n'
    ensures r.Some? ==> forall j :: r.value < j < hi ==> s[j] != '\n'
    ensures r.None? ==> forall j :: lo <= j < hi ==> s[j] != '\n'
    decreases hi - lo
  {
    if lo == hi then None
    else if s[hi - 1] == '\n' then Some(hi - 1)
    else LastNewline(s, lo, hi - 1)
  }

  /** The end of a match of `\n\s*\n` that starts at `i`, if there is one: the
      greedy `\s*` takes the white-space run after the newline and backs off
      to the last newline inside it. */
  function SeparatorAt(s: string, i: nat): (r: Option<nat>)
    requires i < |s|
    ensures r.Some? ==> i + 2 <= r.value <= |s|
  {
    if s[i] != '\n' then None
    else
      match LastNewline(s, i + 1, SpaceRunEnd(s, i + 1))
      case None => None
      case Some(j) => Some(j + 1)
  }

  /** The leftmost separator at or after `from`, as (start, end). */
  function FirstSeparator(s: string, from: nat): (r: Option<(nat, nat)>)
    requires from <= |s|
    ensures r.Some? ==> from <= r.value.0 < |s| && SeparatorAt(s, r.value.0) == Some(r.value.1)
    ensures r.Some? ==> forall p :: from <= p < r.value.0 ==> SeparatorAt(s, p).None?
    ensures r.None? ==> forall p :: from <= p < |s| ==> SeparatorAt(s, p).None?
    decreases |s| - from
  {
    if from == |s| then None
    else
      match SeparatorAt(s, from)
      case Some(e) => Some((from, e))
      case None => FirstSeparator(s, from + 1)
  }

  /** No separator occurs anywhere in `b`: it holds no blank line. */
  ghost predicate NoSeparator(b: string) {
    forall p :: 0 <= p < |b| ==> SeparatorAt(b, p).None?
  }

  /** The blocks of the payload, in order. */
  function Blocks(s: string): (r: seq<string>)
    ensures |r| >= 1
    decreases |s|
  {
    match FirstSeparator(s, 0)
    case None => [s]
    case Some((i, e)) => [s[..i]] + Blocks(s[e..])
  }

  lemma {:induction false} SpaceRunCovers(s: string, p: nat, k: nat)
    requires p <= k <= |s|
    requires forall j :: p <= j < k ==> IsSpace(s[j])
    ensures SpaceRunEnd(s, p) >= k
    decreases k - p
  {
    if p < k {
      SpaceRunCovers(s, p + 1, k);
    }
  }

  /** A separator inside a prefix is a separator of the whole string. */
  lemma SeparatorInPrefix(s: string, i: nat, p: nat)
    requires p < i <= |s|
    requires SeparatorAt(s[..i], p).Some?
    ensures SeparatorAt(s, p).Some?
  {
    var t := s[..i];
    var kt := SpaceRunEnd(t, p + 1);
    assert forall j :: p + 1 <= j < kt ==> IsSpace(s[j]) by {
      forall j | p + 1 <= j < kt ensures IsSpace(s[j]) {
        assert t[j] == s[j];
      }
    }
    SpaceRunCovers(s, p + 1, kt);
    var j :| LastNewline(t, p + 1, kt) == Some(j);
    assert s[j] == t[j] == '\n';
  }

  /** Every block the payload splits into holds no blank line. */
  lemma {:induction false} BlocksHaveNoSeparator(s: string)
    ensures forall k :: 0 <= k < |Blocks(s)| ==> NoSeparator(Blocks(s)[k])
    decreases |s|
  {
    match FirstSeparator(s, 0)
    case None =>
    case Some((i, e)) =>
      BlocksHaveNoSeparator(s[e..]);
      forall p | 0 <= p < i ensures SeparatorAt(s[..i], p).None? {
        if SeparatorAt(s[..i], p).Some? {
          SeparatorInPrefix(s, i, p);
        }
      }
      assert Blocks(s) == [s[..i]] + Blocks(s[e..]);
  }

  /** A string with no blank line is a single block. */
  lemma BlocksOfOne(b: string)
    requires NoSeparator(b)
    ensures Blocks(b) == [b]
  {
  }

  lemma {:induction false} SpaceRunEndAppend(x: string, y: string, p: nat)
    requires p <= |x| && SpaceRunEnd(x, p) < |x|
    ensures SpaceRunEnd(x + y, p) == SpaceRunEnd(x, p)
    decreases |x| - p
  {
    if IsSpace(x[p]) {
      SpaceRunEndAppend(x, y, p + 1);
    }
  }

  lemma {:induction false} LastNewlineAppend(x: string, y: string, lo: nat, hi: nat)
    requires lo <= hi <= |x|
    ensures LastNewline(x + y, lo, hi) == LastNewline(x, lo, hi)
    decreases hi - lo
  {
    if lo < hi {
      LastNewlineAppend(x, y, lo, hi - 1);
    }
  }

  /** Each newline of `b` is followed by a character that is not white space. */
  predicate NewlinesFollowedByText(b: string) {
    forall p :: 0 <= p < |b| && b[p] == '\n' ==> p + 1 < |b| && !IsSpace(b[p + 1])
  }

  lemma NoSeparatorWhenNewlinesFollowedByText(b: string)
    requires NewlinesFollowedByText(b)
    ensures NoSeparator(b)
  {
    forall p | 0 <= p < |b| ensures SeparatorAt(b, p).None? {
      if b[p] == '\n' {
        assert SpaceRunEnd(b, p + 1) == p + 1;
      }
    }
  }

  lemma {:induction false} FirstSeparatorAt(s: string, from: nat, i: nat, e: nat)
    requires from <= i < |s| && SeparatorAt(s, i) == Some(e)
    requires forall p :: from <= p < i ==> SeparatorAt(s, p).None?
    ensures FirstSeparator(s, from) == Some((i, e))
    decreases i - from
  {
    if from < i {
      FirstSeparatorAt(s, from + 1, i, e);
    }
  }

  /** A block that ends in text keeps its (absent) separators when more
      text follows it. */
  lemma NoSeparatorExtended(x: string, y: string, p: nat)
    requires NoSeparator(x) && x != [] && !IsSpace(x[|x| - 1])
    requires p < |x|
    ensures SeparatorAt(x + y, p).None?
  {
    assert (x + y)[p] == x[p];
    if x[p] == '\n' {
      assert p + 1 < |x|;
      var k := SpaceRunEnd(x, p + 1);
      assert k < |x|;
      SpaceRunEndAppend(x, y, p + 1);
      LastNewlineAppend(x, y, p + 1, k);
      assert SeparatorAt(x, p).None?;
    }
  }

  /** Two newlines followed by text (or nothing) are a separator match. */
  lemma SeparatorAtBreak(b: string, rest: string)
    requires rest == [] || !IsSpace(rest[0])
    ensures SeparatorAt(b + "\n\n" + rest, |b|) == Some(|b| + 2)
  {
    var s := b + "\n\n" + rest;
    var n := |b|;
    assert s[n] == '\n' && s[n + 1] == '\n';
    if n + 2 < |s| {
      assert s[n + 2] == rest[0];
    }
    assert SpaceRunEnd(s, n + 2) == n + 2;
    assert SpaceRunEnd(s, n + 1) == n + 2;
    assert LastNewline(s, n + 1, n + 2) == Some(n + 1);
  }

  /** A blank line between a block and the rest of the payload separates them,
      when the block ends in text and the rest starts with text. */
  lemma BlocksCons(b: string, rest: string)
    requires NoSeparator(b) && b != [] && !IsSpace(b[|b| - 1])
    requires rest == [] || !IsSpace(rest[0])
    ensures Blocks(b + "\n\n" + rest) == [b] + Blocks(rest)
  {
    var s := b + "\n\n" + rest;
    var n := |b|;
    assert s == b + ("\n\n" + rest);
    forall p | 0 <= p < n ensures SeparatorAt(s, p).None? {
      NoSeparatorExtended(b, "\n\n" + rest, p);
    }
    SeparatorAtBreak(b, rest);
    FirstSeparatorAt(s, 0, n, n + 2);
    assert s[..n] == b && s[n + 2..] == rest;
  }

  // ---------------------------------------------------------------------------
  // The start stamp: `timestamp.match(/(\d+):(\d+):(\d+)/)`

  function DigitRunEnd(s: string, p: nat): (k: nat)
    requires p <= |s|
    ensures p <= k <= |s|
    ensures forall j :: p <= j < k ==> IsDigit(s[j])
    ensures k == |s| || !IsDigit(s[k])
    decreases |s| - p
  {
    if p < |s| && IsDigit(s[p]) then DigitRunEnd(s, p + 1) else p
  }

  /** The match anchored at `p`: each greedy `\d+` takes the whole digit run,
      since backing off would leave a digit where a colon is needed. */
  function StampAt(s: string, p: nat): Option<Stamp>
    requires p <= |s|
  {
    var a := DigitRunEnd(s, p);
    if a == p || a == |s| || s[a] != ':' then None
    else
      var b := DigitRunEnd(s, a + 1);
      if b == a + 1 || b == |s| || s[b] != ':' then None
      else
        var c := DigitRunEnd(s, b + 1);
        if c == b + 1 then None
        else
          assert AllDigits(s[p..a]) && AllDigits(s[a + 1..b]) && AllDigits(s[b + 1..c]);
          Some(Stamp(DigitsValue(s[p..a]), DigitsValue(s[a + 1..b]), DigitsValue(s[b + 1..c])))
  }

  /** The leftmost match at or after `p`, or `null` (here `None`). */
  function FindStamp(s: string, p: nat): Option<Stamp>
    requires p <= |s|
    decreases |s| - p
  {
    if p == |s| then None
    else
      match StampAt(s, p)
      case Some(st) => Some(st)
      case None => FindStamp(s, p + 1)
  }

  lemma {:induction false} DigitRunEndOf(s: string, p: nat, k: nat)
    requires p <= k <= |s|
    requires forall j :: p <= j < k ==> IsDigit(s[j])
    requires k == |s| || !IsDigit(s[k])
    ensures DigitRunEnd(s, p) == k
    decreases k - p
  {
    if p < k {
      DigitRunEndOf(s, p + 1, k);
    }
  }

  /** A stamp written `H:M:S` with digit groups of any width, followed by
      anything but a digit (such as `,mmm --> ...`), reads as those three
      numbers. */
  lemma DigitRunEndOfSlice(s: string, p: nat, k: nat)
    requires p <= k <= |s| && AllDigits(s[p..k])
    requires k == |s| || !IsDigit(s[k])
    ensures DigitRunEnd(s, p) == k
  {
    forall j | p <= j < k ensures IsDigit(s[j]) {
      assert s[p..k][j - p] == s[j];
    }
    DigitRunEndOf(s, p, k);
  }

  /** The match anchored at `p` when three digit runs separated by colons
      start there. */
  lemma StampAtRuns(s: string, p: nat, a: nat, b: nat, c: nat)
    requires p < a < b - 1 && b < c - 1 && c <= |s|
    requires AllDigits(s[p..a]) && AllDigits(s[a + 1..b]) && AllDigits(s[b + 1..c])
    requires s[a] == ':' && s[b] == ':' && (c == |s| || !IsDigit(s[c]))
    ensures StampAt(s, p) == Some(Stamp(DigitsValue(s[p..a]), DigitsValue(s[a + 1..b]), DigitsValue(s[b + 1..c])))
  {
    DigitRunEndOfSlice(s, p, a);
    DigitRunEndOfSlice(s, a + 1, b);
    DigitRunEndOfSlice(s, b + 1, c);
  }

  /** A stamp written `H:M:S` with digit groups of any width, followed by
      anything but a digit (such as `,mmm --> ...`), reads as those three
      numbers. */
  lemma StampOfDigits(h: string, m: string, sec: string, tail: string)
    requires h != [] && m != [] && sec != []
    requires AllDigits(h) && AllDigits(m) && AllDigits(sec)
    requires tail == [] || !IsDigit(tail[0])
    ensures FindStamp(h + ":" + m + ":" + sec + tail, 0) ==
              Some(Stamp(DigitsValue(h), DigitsValue(m), DigitsValue(sec)))
  {
    var s1 := h + ":";
    var s2 := s1 + m;
    var s3 := s2 + ":";
    var s4 := s3 + sec;
    var s := s4 + tail;
    var a := |h|;
    var b := |s2|;
    var c := |s4|;
    assert s[..c] == s4;
    assert s4[..b] == s2;
    assert s2[..a + 1] == s1;
    assert s[0..a] == h by { assert s1[..a] == h; }
    assert s[a + 1..b] == m by { assert s2[a + 1..] == m; }
    assert s[b + 1..c] == sec by { assert s4[b + 1..] == sec; }
    assert s[a] == ':' by { assert s1[a] == ':'; }
    assert s[b] == ':' by { assert s3[b] == ':'; }
    if c < |s| {
      assert s[c] == tail[0];
    }
    StampAtRuns(s, 0, a, b, c);
  }

  /** Without a colon there is no stamp. */
  lemma {:induction false} NoStampWithoutColon(s: string, p: nat)
    requires p <= |s| && ':' !in s
    ensures FindStamp(s, p) == None
    decreases |s| - p
  {
    if p < |s| {
      var a := DigitRunEnd(s, p);
      assert a < |s| ==> s[a] != ':';
      NoStampWithoutColon(s, p + 1);
    }
  }

  // ---------------------------------------------------------------------------
  // One block

  /** What one block contributes: nothing (fewer than two lines), a line, or
      the `TypeError` thrown when its second line holds no stamp. The break
      marker is appended before the stamp is read, so it is there either way. */
  datatype BlockOutcome = Skipped | Parsed(line: Line) | Unstamped(breakBefore: bool)

  /** `content.match(/^(>>|\[)/)`: a new speaker turn. */
  predicate StartsTurn(content: string) {
    StartsWith(content, ">>") || StartsWith(content, "[")
  }

  function ParseBlock(block: string): BlockOutcome {
    var rows := Split(block, '\n');
    if |rows| <= 1 then Skipped
    else
      var stamp := Before(rows[1], " --> ");
      var content := Join(rows[2..], " ");
      var brk := StartsTurn(content);
      match FindStamp(stamp, 0)
      case None => Unstamped(brk)
      case Some(st) => Parsed(Line(brk, Seconds(st), content))
  }

  /** A block yields nothing exactly when it is a single line. */
  lemma ParseBlockSkips(block: string)
    ensures ParseBlock(block).Skipped? <==> '\n' !in block
  {
    SplitHasTwo(block, '\n');
  }

  /** A two-line block gives an empty text; its time and break come from the
      second line and the (empty) text. */
  lemma ParseTwoLineBlock(first: string, second: string)
    requires '\n' !in first && '\n' !in second
    ensures ParseBlock(first + "\n" + second) ==
              match FindStamp(Before(second, " --> "), 0)
              case None => Unstamped(false)
              case Some(st) => Parsed(Line(false, Seconds(st), ""))
  {
    SplitAfter(first, second, '\n');
    SplitWithout(second, '\n');
  }

  /** In a longer block the text is everything after the second line, its
      line breaks turned into single spaces, and the break is drawn exactly
      when that text starts with `>>` or `[`. */
  lemma ParseLongBlock(first: string, second: string, rest: string)
    requires '\n' !in first && '\n' !in second
    ensures ParseBlock(first + "\n" + second + "\n" + rest) ==
              var text := NewlinesToSpaces(rest);
              match FindStamp(Before(second, " --> "), 0)
              case None => Unstamped(StartsTurn(text))
              case Some(st) => Parsed(Line(StartsTurn(text), Seconds(st), text))
  {
    var block := first + "\n" + second + "\n" + rest;
    assert block == first + "\n" + (second + "\n" + rest);
    SplitAfter(first, second + "\n" + rest, '\n');
    SplitAfter(second, rest, '\n');
    var rows := Split(block, '\n');
    assert rows == [first, second] + Split(rest, '\n');
    assert rows[2..] == Split(rest, '\n');
    JoinLinesWithSpaces(rest);
  }

  // ---------------------------------------------------------------------------
  // The whole payload

  /** The abort: at block `block` the stamp was missing; `emitted` are the
      lines already appended to the transcript and `breakAppended` whether the
      failing block's break marker was appended before the throw. */
  datatype ParseFailure = ParseFailure(block: nat, emitted: seq<Line>, breakAppended: bool)

  /** One turn of the `for` loop over the blocks: block `n` has outcome `o`. */
  function Step(r: Result<seq<Line>, ParseFailure>, n: nat, o: BlockOutcome): Result<seq<Line>, ParseFailure> {
    match r
    case Failure(e) => Failure(e)
    case Success(ls) =>
      match o
      case Skipped => Success(ls)
      case Parsed(l) => Success(ls + [l])
      case Unstamped(brk) => Failure(ParseFailure(n, ls, brk))
  }

  /** The loop over the outcomes of the blocks seen so far. */
  function Collect(os: seq<BlockOutcome>): Result<seq<Line>, ParseFailure>
    decreases |os|
  {
    if os == [] then Success([])
    else Step(Collect(os[..|os| - 1]), |os| - 1, os[|os| - 1])
  }

  function Outcomes(bs: seq<string>): (os: seq<BlockOutcome>)
    ensures |os| == |bs|
  {
    seq(|bs|, i requires 0 <= i < |bs| => ParseBlock(bs[i]))
  }

  function ParseBlocks(bs: seq<string>): Result<seq<Line>, ParseFailure> {
    Collect(Outcomes(bs))
  }

  function Parse(payload: string): Result<seq<Line>, ParseFailure> {
    ParseBlocks(Blocks(payload))
  }

  /** The result of parsing `a + b` from the results for `a` (of length `n`)
      and for `b`. */
  function Chain(ra: Result<seq<Line>, ParseFailure>, n: nat, rb: Result<seq<Line>, ParseFailure>): Result<seq<Line>, ParseFailure> {
    match ra
    case Failure(e) => Failure(e)
    case Success(la) =>
      match rb
      case Success(lb) => Success(la + lb)
      case Failure(e) => Failure(ParseFailure(n + e.block, la + e.emitted, e.breakAppended))
  }

  lemma CollectPrefix(os: seq<BlockOutcome>, i: nat)
    requires i < |os|
    ensures Collect(os[..i + 1]) == Step(Collect(os[..i]), i, os[i])
  {
    assert os[..i + 1][..i] == os[..i];
  }

  lemma {:induction false} CollectAppend(a: seq<BlockOutcome>, b: seq<BlockOutcome>)
    ensures Collect(a + b) == Chain(Collect(a), |a|, Collect(b))
    decreases |b|
  {
    if b == [] {
      assert a + b == a;
      if Collect(a).Success? {
        assert Collect(a).value + [] == Collect(a).value;
      }
    } else {
      var b' := b[..|b| - 1];
      var ab := a + b;
      CollectAppend(a, b');
      assert ab[..|ab| - 1] == a + b';
      assert ab[|ab| - 1] == b[|b| - 1];
      if Collect(a).Success? && Collect(b').Success? && b[|b| - 1].Parsed? {
        var la := Collect(a).value;
        var lb' := Collect(b').value;
        var l := b[|b| - 1].line;
        assert la + (lb' + [l]) == (la + lb') + [l];
      }
    }
  }

  /** Once the outcomes seen so far have failed, the rest changes nothing. */
  lemma CollectStopped(os: seq<BlockOutcome>, i: nat)
    requires i <= |os| && Collect(os[..i]).Failure?
    ensures Collect(os) == Collect(os[..i])
  {
    CollectAppend(os[..i], os[i..]);
    assert os[..i] + os[i..] == os;
  }

  /** Parsing is compositional and keeps the order of the blocks: the lines of
      a concatenation are the lines of the first part followed by those of the
      second, and the first failure aborts everything after it. */
  lemma ParseBlocksAppend(a: seq<string>, b: seq<string>)
    ensures ParseBlocks(a + b) == Chain(ParseBlocks(a), |a|, ParseBlocks(b))
  {
    assert Outcomes(a + b) == Outcomes(a) + Outcomes(b);
    CollectAppend(Outcomes(a), Outcomes(b));
  }

  /** What a single block parses to on its own. */
  lemma ParseOneBlock(b: string)
    ensures ParseBlocks([b]) == Step(Success([]), 0, ParseBlock(b))
  {
    var os := Outcomes([b]);
    assert os[..0] == [];
    assert os[0] == ParseBlock(b);
    assert Collect(os) == Step(Collect(os[..0]), 0, os[0]);
  }

  /** A block without a stamp aborts the parse there: the lines before it are
      kept, no later block is looked at, and nothing is skipped over. */
  lemma UnstampedAborts(a: seq<string>, b: string, c: seq<string>)
    requires ParseBlocks(a).Success?
    requires ParseBlock(b).Unstamped?
    ensures ParseBlocks(a + [b] + c) ==
              Failure(ParseFailure(|a|, ParseBlocks(a).value, ParseBlock(b).breakBefore))
  {
    ParseBlocksAppend(a, [b]);
    ParseOneBlock(b);
    ParseBlocksAppend(a + [b], c);
    assert ParseBlocks(a).value + [] == ParseBlocks(a).value;
  }

  // ---------------------------------------------------------------------------
  // Well-formed cues

  /** A cue as subtitle files write it: an index line, a stamp line
      `H:M:S` + `tail` (`,mmm --> ...`) and one line of text. */
  datatype Cue = Cue(index: string, h: string, m: string, s: string, tail: string, text: string)

  function StampLine(c: Cue): string {
    c.h + ":" + c.m + ":" + c.s + c.tail
  }

  function CueBlock(c: Cue): string {
    c.index + "\n" + StampLine(c) + "\n" + c.text
  }

  /** One line each, digits in the stamp, no white space at the block's edges. */
  predicate WellFormedCue(c: Cue) {
    && c.index != [] && !IsSpace(c.index[0]) && '\n' !in c.index
    && c.h != [] && c.m != [] && c.s != [] && AllDigits(c.h) && AllDigits(c.m) && AllDigits(c.s)
    && (c.tail == [] || !IsDigit(c.tail[0])) && '\n' !in c.tail
    && c.text != [] && !IsSpace(c.text[0]) && !IsSpace(c.text[|c.text| - 1]) && '\n' !in c.text
  }

  /** The line a well-formed cue should give. */
  function CueLine(c: Cue): Line
    requires WellFormedCue(c)
  {
    Line(StartsTurn(c.text), Seconds(Stamp(DigitsValue(c.h), DigitsValue(c.m), DigitsValue(c.s))), c.text)
  }

  /** The payload: cue blocks separated by one blank line each. */
  function Format(cues: seq<Cue>): string {
    Join(seq(|cues|, i requires 0 <= i < |cues| => CueBlock(cues[i])), "\n\n")
  }

  lemma DigitsHaveNoBlank(d: string)
    requires AllDigits(d)
    ensures ' ' !in d && '\n' !in d
  {
  }

  lemma WellFormedStampLine(c: Cue)
    requires WellFormedCue(c)
    ensures '\n' !in StampLine(c) && StampLine(c) != [] && IsDigit(StampLine(c)[0])
  {
    DigitsHaveNoBlank(c.h);
    DigitsHaveNoBlank(c.m);
    DigitsHaveNoBlank(c.s);
    assert StampLine(c)[0] == c.h[0];
  }

  lemma CueParses(c: Cue)
    requires WellFormedCue(c)
    ensures ParseBlock(CueBlock(c)) == Parsed(CueLine(c))
  {
    WellFormedStampLine(c);
    var line := StampLine(c);
    var digits := c.h + ":" + c.m + ":" + c.s;
    assert line == digits + c.tail;
    DigitsHaveNoBlank(c.h);
    DigitsHaveNoBlank(c.m);
    DigitsHaveNoBlank(c.s);
    assert ' ' !in digits;
    BeforeAppend(digits, c.tail, " --> ");
    var cut := Before(c.tail, " --> ");
    assert cut == [] || cut[0] == c.tail[0];
    StampOfDigits(c.h, c.m, c.s, cut);
    assert digits + cut == c.h + ":" + c.m + ":" + c.s + cut;
    ParseLongBlock(c.index, line, c.text);
    assert NewlinesToSpaces(c.text) == c.text;
    assert CueBlock(c) == c.index + "\n" + line + "\n" + c.text;
  }

  lemma CueBlockShape(c: Cue)
    requires WellFormedCue(c)
    ensures NoSeparator(CueBlock(c))
    ensures CueBlock(c) != [] && !IsSpace(CueBlock(c)[0]) && !IsSpace(CueBlock(c)[|CueBlock(c)| - 1])
  {
    WellFormedStampLine(c);
    var b := CueBlock(c);
    var i := |c.index|;
    var l := StampLine(c);
    var n := i + 1 + |l|;
    assert b[i] == '\n' && b[n] == '\n';
    assert b[i + 1] == l[0] && b[n + 1] == c.text[0];
    forall p | 0 <= p < |b| && p != i && p != n ensures b[p] != '\n' {
      if p < i {
        assert b[p] == c.index[p];
      } else if i < p < n {
        assert b[p] == l[p - i - 1];
      } else {
        assert b[p] == c.text[p - n - 1];
      }
    }
    NoSeparatorWhenNewlinesFollowedByText(b);
    assert b[0] == c.index[0];
    assert b[|b| - 1] == c.text[|c.text| - 1];
  }

  lemma FormatCons(c: Cue, cs: seq<Cue>)
    requires cs != []
    ensures Format([c] + cs) == CueBlock(c) + "\n\n" + Format(cs)
  {
    var all := [c] + cs;
    var blocks := seq(|all|, i requires 0 <= i < |all| => CueBlock(all[i]));
    assert blocks[1..] == seq(|cs|, i requires 0 <= i < |cs| => CueBlock(cs[i]));
  }

  function CueBlocks(cues: seq<Cue>): seq<string> {
    seq(|cues|, i requires 0 <= i < |cues| => CueBlock(cues[i]))
  }

  function CueLines(cues: seq<Cue>): seq<Line>
    requires forall i :: 0 <= i < |cues| ==> WellFormedCue(cues[i])
  {
    seq(|cues|, i requires 0 <= i < |cues| => CueLine(cues[i]))
  }

  lemma FormatStartsWithText(cues: seq<Cue>)
    requires cues != [] && WellFormedCue(cues[0])
    ensures Format(cues) != [] && !IsSpace(Format(cues)[0])
  {
    CueBlockShape(cues[0]);
    if |cues| == 1 {
      assert Format(cues) == CueBlock(cues[0]);
    } else {
      assert [cues[0]] + cues[1..] == cues;
      FormatCons(cues[0], cues[1..]);
      assert Format(cues)[0] == CueBlock(cues[0])[0];
    }
  }

  /** A payload of well-formed cues splits into exactly the cue blocks. */
  lemma {:induction false} BlocksFormatted(cues: seq<Cue>)
    requires cues != []
    requires forall i :: 0 <= i < |cues| ==> WellFormedCue(cues[i])
    ensures Blocks(Format(cues)) == CueBlocks(cues)
    decreases |cues|
  {
    var c := cues[0];
    CueBlockShape(c);
    if |cues| == 1 {
      assert Format(cues) == CueBlock(c);
      BlocksOfOne(CueBlock(c));
    } else {
      var cs := cues[1..];
      assert forall i :: 0 <= i < |cs| ==> WellFormedCue(cs[i]) by {
        forall i | 0 <= i < |cs| ensures WellFormedCue(cs[i]) {
          assert cs[i] == cues[i + 1];
        }
      }
      BlocksFormatted(cs);
      BlocksFormattedCons(c, cs);
      assert cues == [c] + cs;
    }
  }

  /** One more cue in front of a payload that already splits into its blocks. */
  lemma BlocksFormattedCons(c: Cue, cs: seq<Cue>)
    requires cs != [] && WellFormedCue(c) && WellFormedCue(cs[0])
    requires Blocks(Format(cs)) == CueBlocks(cs)
    ensures Blocks(Format([c] + cs)) == CueBlocks([c] + cs)
  {
    CueBlockShape(c);
    FormatCons(c, cs);
    FormatStartsWithText(cs);
    BlocksCons(CueBlock(c), Format(cs));
    assert CueBlocks([c] + cs) == [CueBlock(c)] + CueBlocks(cs);
  }

  lemma CueSnoc(cues: seq<Cue>)
    requires cues != []
    requires forall i :: 0 <= i < |cues| ==> WellFormedCue(cues[i])
    ensures CueBlocks(cues) == CueBlocks(cues[..|cues| - 1]) + [CueBlock(cues[|cues| - 1])]
    ensures CueLines(cues) == CueLines(cues[..|cues| - 1]) + [CueLine(cues[|cues| - 1])]
  {
  }

  /** Each cue block gives the cue's line. */
  lemma {:induction false} ParseCueBlocks(cues: seq<Cue>)
    requires forall i :: 0 <= i < |cues| ==> WellFormedCue(cues[i])
    ensures ParseBlocks(CueBlocks(cues)) == Success(CueLines(cues))
    decreases |cues|
  {
    if cues == [] {
      assert Outcomes(CueBlocks(cues)) == [];
      assert CueLines(cues) == [];
    } else {
      var init := cues[..|cues| - 1];
      var c := cues[|cues| - 1];
      ParseCueBlocks(init);
      CueParses(c);
      ParseOneBlock(CueBlock(c));
      CueSnoc(cues);
      ParseBlocksAppend(CueBlocks(init), [CueBlock(c)]);
      assert [] + [CueLine(c)] == [CueLine(c)];
    }
  }

  /** Formatting well-formed cues and parsing the result gives back one line
      per cue, in cue order, with the cue's time and text. */
  lemma ParseFormatted(cues: seq<Cue>)
    requires forall i :: 0 <= i < |cues| ==> WellFormedCue(cues[i])
    ensures Parse(Format(cues)) == Success(CueLines(cues))
  {
    if cues == [] {
      assert Format(cues) == "";
      BlocksOfOne("");
      ParseOneBlock("");
      ParseBlockSkips("");
      assert CueLines(cues) == [];
    } else {
      BlocksFormatted(cues);
      ParseCueBlocks(cues);
    }
  }

  const HelloCue := Cue("1", "00", "00", "01", ",000 --> 00:00:02,000", "Hello")
  const GoodbyeCue := Cue("2", "00", "01", "05", ",000 --> 00:01:06,000", ">> Goodbye")

  lemma ScenarioWellFormed()
    ensures WellFormedCue(HelloCue) && WellFormedCue(GoodbyeCue)
  {
    assert AllDigits("00") && AllDigits("01") && AllDigits("05");
  }

  lemma TwoDigits(a: char, b: char)
    requires IsDigit(a) && IsDigit(b)
    ensures DigitsValue([a, b]) == DigitValue(a) * 10 + DigitValue(b)
  {
    assert [a, b][..1] == [a] && [a, b][1] == b;
    assert [a][..0] == [] && [a][0] == a;
    assert DigitsValue([a]) == DigitValue(a);
  }

  lemma ScenarioLines()
    requires WellFormedCue(HelloCue) && WellFormedCue(GoodbyeCue)
    ensures CueLines([HelloCue, GoodbyeCue]) == [Line(false, 1, "Hello"), Line(true, 65, ">> Goodbye")]
  {
    TwoDigits('0', '0');
    TwoDigits('0', '1');
    TwoDigits('0', '5');
    assert "00" == ['0', '0'] && "01" == ['0', '1'] && "05" == ['0', '5'];
    assert StartsTurn(">> Goodbye") && !StartsTurn("Hello");
  }

  /** Two cues, `1 / 00:00:01,000 --> 00:00:02,000 / Hello` and
      `2 / 00:01:05,000 --> 00:01:06,000 / >> Goodbye`, separated by a blank
      line: the lines start at 1 and 65 seconds and only the second, a new
      speaker turn, has a break before it. */
  lemma TwoCueScenario()
    ensures Parse(Format([HelloCue, GoodbyeCue])) ==
              Success([Line(false, 1, "Hello"), Line(true, 65, ">> Goodbye")])
  {
    ScenarioWellFormed();
    ParseFormatted([HelloCue, GoodbyeCue]);
    ScenarioLines();
  }
}
