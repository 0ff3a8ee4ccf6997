/** The list of available questions (the rows of the notifications table):
    `checkQuestionAvailable`, run on every time update, and the click handler
    that shows a listed question and removes its row. */
module Notifications {
  import opened Seqs
  import opened Questions

  /** A question becomes available at the second that equals its timecode exactly. */
  predicate IsDue(q: TimedQuestion, second: nat) {
    q.timecode == second
  }

  /** One step of the `_.each`: prepend the question's row when it is due and
      no row with its id is listed yet. */
  function Offer(rows: seq<QuestionId>, q: TimedQuestion, second: nat): seq<QuestionId> {
    if IsDue(q, second) && q.question.id !in rows then [q.question.id] + rows else rows
  }

  /** The rows after one time update at `second`, questions taken in array order. */
  function Ticked(rows: seq<QuestionId>, qs: seq<TimedQuestion>, second: nat): seq<QuestionId>
    decreases |qs|
  {
    if qs == [] then rows else Offer(Ticked(rows, qs[..|qs| - 1], second), qs[|qs| - 1], second)
  }

  /** Reference definition: the ids of the due questions that are not listed
      yet, each once, in the order the questions come. */
  function FreshIds(rows: seq<QuestionId>, qs: seq<TimedQuestion>, second: nat): seq<QuestionId>
    decreases |qs|
  {
    if qs == [] then []
    else
      var f := FreshIds(rows, qs[..|qs| - 1], second);
      var q := qs[|qs| - 1];
      if IsDue(q, second) && q.question.id !in rows && q.question.id !in f then f + [q.question.id] else f
  }

  /** The ids of all due questions, in array order. */
  function DueIds(qs: seq<TimedQuestion>, second: nat): seq<QuestionId>
    decreases |qs|
  {
    if qs == [] then []
    else DueIds(qs[..|qs| - 1], second) + (if IsDue(qs[|qs| - 1], second) then [qs[|qs| - 1].question.id] else [])
  }

  /** Some question with this id is due at `second`. */
  ghost predicate DueWithId(qs: seq<TimedQuestion>, second: nat, x: QuestionId) {
    exists i :: 0 <= i < |qs| && IsDue(qs[i], second) && qs[i].question.id == x
  }

  lemma DueWithIdPrefix(qs: seq<TimedQuestion>, second: nat, x: QuestionId)
    requires qs != []
    ensures DueWithId(qs, second, x) <==>
              DueWithId(qs[..|qs| - 1], second, x) || (IsDue(qs[|qs| - 1], second) && qs[|qs| - 1].question.id == x)
  {
    var p := qs[..|qs| - 1];
    if DueWithId(qs, second, x) {
      var i :| 0 <= i < |qs| && IsDue(qs[i], second) && qs[i].question.id == x;
      if i < |qs| - 1 {
        assert p[i] == qs[i];
      }
    }
    if DueWithId(p, second, x) {
      var i :| 0 <= i < |p| && IsDue(p[i], second) && p[i].question.id == x;
      assert qs[i] == p[i];
    }
  }

  /** A row is listed after the update exactly when it was listed before or
      some question with its id is due now: nothing else is ever added. */
  lemma {:induction false} TickedMembers(rows: seq<QuestionId>, qs: seq<TimedQuestion>, second: nat, x: QuestionId)
    ensures x in Ticked(rows, qs, second) <==> x in rows || DueWithId(qs, second, x)
    decreases |qs|
  {
    if qs != [] {
      TickedMembers(rows, qs[..|qs| - 1], second, x);
      DueWithIdPrefix(qs, second, x);
    }
  }

  /** The update never lists one id twice. */
  lemma {:induction false} TickedNoDup(rows: seq<QuestionId>, qs: seq<TimedQuestion>, second: nat)
    requires NoDup(rows)
    ensures NoDup(Ticked(rows, qs, second))
    decreases |qs|
  {
    if qs != [] {
      TickedNoDup(rows, qs[..|qs| - 1], second);
      var t := Ticked(rows, qs[..|qs| - 1], second);
      var q := qs[|qs| - 1];
      if IsDue(q, second) && q.question.id !in t {
        var u := [q.question.id] + t;
        forall i, j | 0 <= i < j < |u| ensures u[i] != u[j] {
          if i == 0 {
            assert u[j] == t[j - 1];
          } else {
            assert u[i] == t[i - 1] && u[j] == t[j - 1];
          }
        }
      }
    }
  }

  /** An update that finds every due question already listed changes nothing. */
  lemma {:induction false} TickedNothingNew(rows: seq<QuestionId>, qs: seq<TimedQuestion>, second: nat)
    requires forall i :: 0 <= i < |qs| && IsDue(qs[i], second) ==> qs[i].question.id in rows
    ensures Ticked(rows, qs, second) == rows
    decreases |qs|
  {
    if qs != [] {
      var p := qs[..|qs| - 1];
      forall i | 0 <= i < |p| && IsDue(p[i], second) ensures p[i].question.id in rows {
        assert p[i] == qs[i];
      }
      TickedNothingNew(rows, p, second);
    }
  }

  /** Running the same update twice gives the same rows as running it once. */
  lemma TickedIdempotent(rows: seq<QuestionId>, qs: seq<TimedQuestion>, second: nat)
    ensures Ticked(Ticked(rows, qs, second), qs, second) == Ticked(rows, qs, second)
  {
    var t := Ticked(rows, qs, second);
    forall i | 0 <= i < |qs| && IsDue(qs[i], second) ensures qs[i].question.id in t {
      TickedMembers(rows, qs, second, qs[i].question.id);
    }
    TickedNothingNew(t, qs, second);
  }

  lemma {:induction false} FreshIdsMembers(rows: seq<QuestionId>, qs: seq<TimedQuestion>, second: nat, x: QuestionId)
    ensures x in FreshIds(rows, qs, second) <==> x !in rows && DueWithId(qs, second, x)
    decreases |qs|
  {
    if qs != [] {
      FreshIdsMembers(rows, qs[..|qs| - 1], second, x);
      DueWithIdPrefix(qs, second, x);
    }
  }

  /** New rows go on top, the newest first, and the rows already listed stay
      below them untouched: the update prepends the reversal of `FreshIds`. */
  lemma {:induction false} TickedShape(rows: seq<QuestionId>, qs: seq<TimedQuestion>, second: nat)
    ensures Ticked(rows, qs, second) == Reversed(FreshIds(rows, qs, second)) + rows
    decreases |qs|
  {
    if qs != [] {
      var p := qs[..|qs| - 1];
      var q := qs[|qs| - 1];
      var f := FreshIds(rows, p, second);
      var t := Ticked(rows, p, second);
      TickedShape(rows, p, second);
      assert t == Reversed(f) + rows;
      ReversedMembers(f);
      var x := q.question.id;
      assert x in t <==> x in f || x in rows;
      if IsDue(q, second) && x !in t {
        ReversedSnoc(f, x);
        calc {
          Ticked(rows, qs, second);
          [x] + t;
          [x] + (Reversed(f) + rows);
          ([x] + Reversed(f)) + rows;
          Reversed(f + [x]) + rows;
          Reversed(FreshIds(rows, qs, second)) + rows;
        }
      } else {
        assert Ticked(rows, qs, second) == t;
        assert FreshIds(rows, qs, second) == f;
      }
    }
  }

  lemma NoDupPrefix<T>(a: seq<T>, b: seq<T>)
    requires NoDup(a + b)
    ensures NoDup(a)
  {
    forall i, j | 0 <= i < j < |a| ensures a[i] != a[j] {
      assert (a + b)[i] == a[i] && (a + b)[j] == a[j];
    }
  }

  /** When the due questions carry distinct ids that are not listed yet, the
      fresh ids are exactly the due ids in array order. */
  lemma {:induction false} FreshIdsDistinct(rows: seq<QuestionId>, qs: seq<TimedQuestion>, second: nat)
    requires NoDup(DueIds(qs, second))
    requires forall x :: x in DueIds(qs, second) ==> x !in rows
    ensures FreshIds(rows, qs, second) == DueIds(qs, second)
    decreases |qs|
  {
    if qs != [] {
      var p := qs[..|qs| - 1];
      var q := qs[|qs| - 1];
      var tail := if IsDue(q, second) then [q.question.id] else [];
      assert DueIds(qs, second) == DueIds(p, second) + tail;
      NoDupPrefix(DueIds(p, second), tail);
      FreshIdsDistinct(rows, p, second);
      if IsDue(q, second) {
        var d := DueIds(qs, second);
        var dp := DueIds(p, second);
        forall i | 0 <= i < |dp| ensures dp[i] != q.question.id {
          assert d[i] == dp[i];
          assert d[|d| - 1] == q.question.id;
        }
      }
    }
  }

  /** Questions that become due at the same second, with distinct ids not yet
      listed, end up on top of the list in the reverse of their array order. */
  lemma SameSecondReversed(rows: seq<QuestionId>, qs: seq<TimedQuestion>, second: nat)
    requires NoDup(DueIds(qs, second))
    requires forall x :: x in DueIds(qs, second) ==> x !in rows
    ensures Ticked(rows, qs, second) == Reversed(DueIds(qs, second)) + rows
  {
    TickedShape(rows, qs, second);
    FreshIdsDistinct(rows, qs, second);
  }

  /** Items 1 and 2 at second 5 and item 3 at second 10. */
  const ScenarioQuestions: seq<TimedQuestion> := [
    TimedQuestion(5, Flip, QuestionData("1", "", [])),
    TimedQuestion(5, Flip, QuestionData("2", "", [])),
    TimedQuestion(10, Flip, QuestionData("3", "", []))
  ]

  lemma NothingDueAt(second: nat, rows: seq<QuestionId>)
    requires second != 5 && second != 10
    ensures Ticked(rows, ScenarioQuestions, second) == rows
  {
    TickedNothingNew(rows, ScenarioQuestions, second);
  }

  /** The due ids of a list with one more question at its end. */
  lemma DueIdsSnoc(qs: seq<TimedQuestion>, q: TimedQuestion, second: nat)
    ensures DueIds(qs + [q], second)
              == DueIds(qs, second) + (if IsDue(q, second) then [q.question.id] else [])
  {
    assert (qs + [q])[..|qs|] == qs;
  }

  lemma ScenarioDueIds()
    ensures DueIds(ScenarioQuestions, 5) == ["1", "2"]
    ensures DueIds(ScenarioQuestions, 10) == ["3"]
  {
    var q0, q1, q2 := ScenarioQuestions[0], ScenarioQuestions[1], ScenarioQuestions[2];
    assert ScenarioQuestions == [q0, q1] + [q2];
    assert [q0, q1] == [q0] + [q1];
    assert [q0] == [] + [q0];
    DueIdsSnoc([], q0, 5);
    DueIdsSnoc([q0], q1, 5);
    DueIdsSnoc([q0, q1], q2, 5);
    DueIdsSnoc([], q0, 10);
    DueIdsSnoc([q0], q1, 10);
    DueIdsSnoc([q0, q1], q2, 10);
    assert DueIds([q0], 5) == ["1"] && DueIds([q0], 10) == [];
    assert DueIds([q0, q1], 5) == ["1"] + ["2"] && DueIds([q0, q1], 10) == [];
  }

  lemma ScenarioReversals()
    ensures Reversed(["1", "2"]) == ["2", "1"]
    ensures Reversed(["3"]) == ["3"]
  {
    ReversedSnoc(["1"], "2");
    ReversedSnoc([], "1");
    ReversedSnoc([], "3");
    assert [] + ["1"] == ["1"] && ["1"] + ["2"] == ["1", "2"] && [] + ["3"] == ["3"];
  }

  /** Ticks at 0, 4, 5, 9 and 10: nothing shows before second 5; at second 5
      both items appear, the second one on top since rows are prepended;
      second 9 adds nothing; second 10 puts item 3 on top. */
  lemma TickScenario()
    ensures Ticked(Ticked([], ScenarioQuestions, 0), ScenarioQuestions, 4) == []
    ensures Ticked([], ScenarioQuestions, 5) == ["2", "1"]
    ensures Ticked(["2", "1"], ScenarioQuestions, 9) == ["2", "1"]
    ensures Ticked(["2", "1"], ScenarioQuestions, 10) == ["3", "2", "1"]
  {
    NothingDueAt(0, []);
    NothingDueAt(4, []);
    NothingDueAt(9, ["2", "1"]);
    ScenarioDueIds();
    ScenarioReversals();
    SameSecondReversed([], ScenarioQuestions, 5);
    SameSecondReversed(["2", "1"], ScenarioQuestions, 10);
    assert ["2", "1"] + [] == ["2", "1"];
    assert ["3"] + ["2", "1"] == ["3", "2", "1"];
  }

  /** The rows of the notifications table, over the player's questions. */
  class NotificationList {
    const questions: seq<TimedQuestion>
    var rows: seq<QuestionId>

    ghost predicate Valid()
      reads this
    {
      NoDup(rows)
    }

    constructor (questions: seq<TimedQuestion>)
      ensures Valid()
      ensures this.questions == questions && rows == []
    {
      this.questions := questions;
      rows := [];
    }

    /** `checkQuestionAvailable` at the (already floored) second `second`. */
    method Tick(second: nat)
      requires Valid()
      modifies this
      ensures Valid()
      ensures rows == Ticked(old(rows), questions, second)
    {
      for i := 0 to |questions|
        invariant rows == Ticked(old(rows), questions[..i], second)
      {
        assert questions[..i + 1][..i] == questions[..i];
        var q := questions[i];
        if q.timecode == second && q.question.id !in rows {
          rows := [q.question.id] + rows;
        }
      }
      assert questions[..|questions|] == questions;
      TickedNoDup(old(rows), questions, second);
    }

    /** A click on the link of row `k`: show the question the row names, then
        remove that row. */
    method Click(k: nat) returns (d: Display)
      requires Valid()
      requires k < |rows|
      modifies this
      ensures Valid()
      ensures d == Show(questions, old(rows)[k])
      ensures rows == old(rows)[..k] + old(rows)[k + 1..]
      ensures old(rows)[k] !in rows
    {
      var id := rows[k];
      d := Show(questions, id);
      ghost var before := rows;
      rows := rows[..k] + rows[k + 1..];
      forall i | 0 <= i < |rows| ensures rows[i] != id {
        if i < k {
          assert rows[i] == before[i];
        } else {
          assert rows[i] == before[i + 1];
        }
      }
      forall i, j | 0 <= i < j < |rows| ensures rows[i] != rows[j] {
        var i' := if i < k then i else i + 1;
        var j' := if j < k then j else j + 1;
        assert rows[i] == before[i'] && rows[j] == before[j'];
      }
    }
  }
}
