/** Quiz grading as `submit_quiz` does it (AI-website/app.py): a question
    scores when its submitted answer is non-empty and `int()` of it equals
    the correct option. A non-empty answer that is not an integer makes
    `int()` raise, and the whole submission fails. */
module Grading {
  import opened Basics
  import opened Text
  import opened Entities

  /** What the grading expression makes of one question. */
  datatype Mark = Right | Wrong | Raises

  /** One question: no answer (or an empty one) is simply wrong; otherwise
      `int(answer) == quiz.correct_answer`, or ValueError. */
  function MarkOf(answers: map<int, string>, q: Quiz): (m: Mark)
    ensures m == Right <==> q.id in answers && ParseInt(answers[q.id]) == Some(q.correctAnswer)
    ensures m == Raises <==> q.id in answers && answers[q.id] != [] && ParseInt(answers[q.id]).None?
  {
    if q.id !in answers || answers[q.id] == [] then Wrong
    else match ParseInt(answers[q.id])
      case None => Raises
      case Some(v) => if v == q.correctAnswer then Right else Wrong
  }

  /** The mark of each question, in order. */
  function Marks(quizzes: seq<Quiz>, answers: map<int, string>): (m: seq<Mark>)
    ensures |m| == |quizzes|
  {
    if quizzes == [] then [] else [MarkOf(answers, quizzes[0])] + Marks(quizzes[1..], answers)
  }

  /** The mark at each position is the mark of the question there. */
  lemma {:induction false} MarksAt(quizzes: seq<Quiz>, answers: map<int, string>)
    ensures forall i :: 0 <= i < |quizzes| ==> Marks(quizzes, answers)[i] == MarkOf(answers, quizzes[i])
  {
    if quizzes != [] {
      var rest := quizzes[1..];
      MarksAt(rest, answers);
      forall i | 0 < i < |quizzes|
        ensures Marks(quizzes, answers)[i] == MarkOf(answers, quizzes[i])
      {
        assert Marks(quizzes, answers)[i] == Marks(rest, answers)[i - 1];
        assert rest[i - 1] == quizzes[i];
      }
    }
  }

  /** `sum(1 for ...)` over the marks; None when one of them raised. */
  function Tally(marks: seq<Mark>): (r: Option<nat>)
    ensures r.Some? ==> r.value <= |marks|
  {
    if marks == [] then Some(0)
    else if marks[0] == Raises then None
    else match Tally(marks[1..])
      case None => None
      case Some(n) => Some(n + if marks[0] == Right then 1 else 0)
  }

  /** The score of a submission over a session's quizzes, None when `int()`
      raises. */
  function Score(quizzes: seq<Quiz>, answers: map<int, string>): (r: Option<nat>)
    ensures r.Some? ==> r.value <= |quizzes|
  {
    Tally(Marks(quizzes, answers))
  }

  /** The tally fails exactly when some mark raised. */
  lemma {:induction false} TallyFailsIff(marks: seq<Mark>)
    ensures Tally(marks).None? <==> Raises in marks
  {
    if marks != [] {
      TallyFailsIff(marks[1..]);
      assert marks == [marks[0]] + marks[1..];
    }
  }

  /** A full tally means every mark is Right; 0 means none is. */
  lemma {:induction false} TallyExtremes(marks: seq<Mark>)
    requires Tally(marks).Some?
    ensures Tally(marks).value == |marks| <==> forall i :: 0 <= i < |marks| ==> marks[i] == Right
    ensures Tally(marks).value == 0 <==> Right !in marks
  {
    if marks != [] {
      var rest := marks[1..];
      TallyExtremes(rest);
      assert marks == [marks[0]] + rest;
      assert forall i :: 0 < i < |marks| ==> marks[i] == rest[i - 1];
      if !(forall i :: 0 <= i < |rest| ==> rest[i] == Right) {
        var i :| 0 <= i < |rest| && rest[i] != Right;
        assert marks[i + 1] == rest[i];
      }
    }
  }

  lemma {:induction false} TallyAppend(a: seq<Mark>, b: seq<Mark>)
    requires Tally(a).Some? && Tally(b).Some?
    ensures Tally(a + b) == Some(Tally(a).value + Tally(b).value)
  {
    if a == [] {
      assert a + b == b;
    } else {
      assert (a + b)[1..] == a[1..] + b;
      TallyAppend(a[1..], b);
    }
  }

  /** The submission fails exactly when a non-empty answer is not an
      integer; a missing or empty answer never makes it fail. */
  lemma ScoreFailsIff(quizzes: seq<Quiz>, answers: map<int, string>)
    ensures Score(quizzes, answers).None? <==>
      exists i :: 0 <= i < |quizzes| && quizzes[i].id in answers && answers[quizzes[i].id] != []
                  && ParseInt(answers[quizzes[i].id]).None?
  {
    var m := Marks(quizzes, answers);
    MarksAt(quizzes, answers);
    TallyFailsIff(m);
    if Raises in m {
      var i :| 0 <= i < |m| && m[i] == Raises;
      assert MarkOf(answers, quizzes[i]) == Raises;
    }
  }

  /** A full score means every question was answered with its correct
      option; a score of 0 means none was. */
  lemma ScoreExtremes(quizzes: seq<Quiz>, answers: map<int, string>)
    requires Score(quizzes, answers).Some?
    ensures Score(quizzes, answers).value == |quizzes| <==>
      forall i :: 0 <= i < |quizzes| ==> MarkOf(answers, quizzes[i]) == Right
    ensures Score(quizzes, answers).value == 0 <==>
      forall i :: 0 <= i < |quizzes| ==> MarkOf(answers, quizzes[i]) != Right
  {
    var m := Marks(quizzes, answers);
    MarksAt(quizzes, answers);
    TallyExtremes(m);
    if Right in m {
      var i :| 0 <= i < |m| && m[i] == Right;
    }
  }

  /** Each question is marked on its own: the marks of two runs of
      questions are the marks of the first followed by those of the second. */
  lemma {:induction false} MarksAppend(a: seq<Quiz>, b: seq<Quiz>, answers: map<int, string>)
    ensures Marks(a + b, answers) == Marks(a, answers) + Marks(b, answers)
  {
    if a == [] {
      assert a + b == b;
    } else {
      assert (a + b)[0] == a[0] && (a + b)[1..] == a[1..] + b;
      MarksAppend(a[1..], b, answers);
    }
  }

  /** Scores add up over the question bank. */
  lemma ScoreAppend(a: seq<Quiz>, b: seq<Quiz>, answers: map<int, string>)
    requires Score(a, answers).Some? && Score(b, answers).Some?
    ensures Score(a + b, answers) == Some(Score(a, answers).value + Score(b, answers).value)
  {
    var ma, mb := Marks(a, answers), Marks(b, answers);
    assert Score(a + b, answers) == Tally(ma + mb) by {
      MarksAppend(a, b, answers);
    }
    TallyAppend(ma, mb);
  }

  /** Submitting each question's correct option, as `str()` renders it,
      scores every question. An option stored by `admin_add_quiz` came
      from `int()`, so it is within the digit limit. */
  lemma CorrectOptionsScoreAll(quizzes: seq<Quiz>, answers: map<int, string>)
    requires forall i :: 0 <= i < |quizzes| ==>
      && quizzes[i].id in answers && answers[quizzes[i].id] == Show(quizzes[i].correctAnswer)
      && ShownDigits(quizzes[i].correctAnswer) <= MaxStrDigits
    ensures Score(quizzes, answers) == Some(|quizzes|)
  {
    var m := Marks(quizzes, answers);
    MarksAt(quizzes, answers);
    forall i | 0 <= i < |quizzes| ensures m[i] == Right {
      var n := quizzes[i].correctAnswer;
      ParseShow(n);
      assert Show(n) != [] by {
        if n >= 0 {
          assert Show(n) == ShowNat(n);
        }
      }
    }
    TallyFailsIff(m);
    TallyExtremes(m);
  }

  /** An empty submission scores 0 and raises nothing. */
  lemma NothingAnsweredScoresZero(quizzes: seq<Quiz>)
    ensures Score(quizzes, map[]) == Some(0)
  {
    var m := Marks(quizzes, map[]);
    MarksAt(quizzes, map[]);
    assert forall i :: 0 <= i < |m| ==> m[i] == Wrong;
    TallyFailsIff(m);
    TallyExtremes(m);
  }

  /** An answer that renders an integer within the digit limit marks the
      question by that integer. */
  lemma MarkOfShown(answers: map<int, string>, q: Quiz, v: int)
    requires q.id in answers && answers[q.id] == Show(v) && ShownDigits(v) <= MaxStrDigits
    ensures MarkOf(answers, q) == if v == q.correctAnswer then Right else Wrong
  {
    ParseShow(v);
    assert Show(v) != [] by {
      if v >= 0 {
        assert Show(v) == ShowNat(v);
      }
    }
  }

  lemma ShowSmall()
    ensures Show(2) == "2" && Show(3) == "3" && Show(4) == "4"
  {
  }

  lemma TallyTwoRight()
    ensures Tally([Right, Wrong, Right]) == Some(2)
  {
    assert [Right, Wrong, Right][1..] == [Wrong, Right];
    assert [Wrong, Right][1..] == [Right] && [Right][1..] == [];
  }

  /** Three questions with correct options 2, 1, 4 and answers 2, 3, 4
      score 2 out of 3. */
  lemma TwoOfThree()
    ensures Score([Quiz(1, 5, "q1", ["a", "b", "c", "d"], 2),
                   Quiz(2, 5, "q2", ["a", "b", "c", "d"], 1),
                   Quiz(3, 5, "q3", ["a", "b", "c", "d"], 4)],
                  map[1 := "2", 2 := "3", 3 := "4"]) == Some(2)
  {
    var opts := ["a", "b", "c", "d"];
    var qs := [Quiz(1, 5, "q1", opts, 2), Quiz(2, 5, "q2", opts, 1), Quiz(3, 5, "q3", opts, 4)];
    var answers := map[1 := "2", 2 := "3", 3 := "4"];
    ShowSmall();
    assert ShownDigits(2) == 1 && ShownDigits(3) == 1 && ShownDigits(4) == 1;
    MarkOfShown(answers, qs[0], 2);
    MarkOfShown(answers, qs[1], 3);
    MarkOfShown(answers, qs[2], 4);
    MarksAt(qs, answers);
    assert Marks(qs, answers) == [Right, Wrong, Right];
    TallyTwoRight();
  }
}
