/** Course progress as `course_detail` computes it (AI-website/app.py):
    per session, the present videos and the user's completion rows; per
    course, completed rows x 100 / present videos. Completion rows are counted
    without looking at their video number, so a session with stray rows
    contributes more than its videos and the percentage can pass 100. */
module Progress {
  import opened Basics
  import opened Entities
  import opened Videos

  /** `VideoCompletion.query.filter_by(user_id=user, session_id=sid).count()`. */
  function CompletionsFor(rows: seq<Completion>, user: int, sid: int): nat
  {
    if rows == [] then 0
    else
      var last := rows[|rows| - 1];
      CompletionsFor(rows[..|rows| - 1], user, sid) + (if last.userId == user && last.sessionId == sid then 1 else 0)
  }

  /** `total_vids_course`: present videos over the course's sessions. */
  function TotalPresent(sessions: seq<Session>): nat
  {
    if sessions == [] then 0
    else TotalPresent(sessions[..|sessions| - 1]) + PresentCount(sessions[|sessions| - 1].videos)
  }

  /** `total_comp_vids_course`: the user's completion rows over those sessions. */
  function TotalCompleted(sessions: seq<Session>, rows: seq<Completion>, user: int): nat
  {
    if sessions == [] then 0
    else TotalCompleted(sessions[..|sessions| - 1], rows, user) + CompletionsFor(rows, user, sessions[|sessions| - 1].id)
  }

  /** `is_session_fully_completed`. */
  predicate FullyCompleted(s: Session, rows: seq<Completion>, user: int)
    ensures FullyCompleted(s, rows, user) ==> 1 <= CompletionsFor(rows, user, s.id) <= |s.videos|
  {
    PresentCount(s.videos) > 0 && CompletionsFor(rows, user, s.id) == PresentCount(s.videos)
  }

  /** A percentage held exactly as the fraction num / den (the source uses a float). */
  datatype Ratio = Ratio(num: nat, den: nat)

  const Zero := Ratio(0, 1)

  /** `(completed / present) * 100 if present > 0 else 0`. */
  function Percent(completed: nat, present: nat): (r: Ratio)
    ensures r.den > 0
    ensures present == 0 ==> r.num == 0
    ensures present > 0 ==> r.num * present == 100 * completed * r.den
  {
    if present > 0 then Ratio(100 * completed, present) else Zero
  }

  /** x <= y as fractions. */
  predicate AtMost(x: Ratio, y: Ratio)
  {
    x.num * y.den <= y.num * x.den
  }

  /** The loop of `course_detail`. Without a grant nothing is computed and
      the progress is 0; with one, the sums and per-session flags above. */
  method CourseProgress(sessions: seq<Session>, rows: seq<Completion>, user: int, hasAccess: bool)
    returns (progress: Ratio, fully: seq<bool>)
    ensures !hasAccess ==> progress == Zero && fully == []
    ensures hasAccess ==> progress == Percent(TotalCompleted(sessions, rows, user), TotalPresent(sessions))
    ensures hasAccess ==> |fully| == |sessions|
    ensures hasAccess ==> forall k :: 0 <= k < |sessions| ==> fully[k] == FullyCompleted(sessions[k], rows, user)
  {
    progress := Zero;
    fully := [];
    if hasAccess {
      var totalVids, totalDone := 0, 0;
      for i := 0 to |sessions|
        invariant totalVids == TotalPresent(sessions[..i])
        invariant totalDone == TotalCompleted(sessions[..i], rows, user)
        invariant |fully| == i
        invariant forall k :: 0 <= k < i ==> fully[k] == FullyCompleted(sessions[k], rows, user)
      {
        var sess := sessions[i];
        var numVids := PresentCount(sess.videos);
        totalVids := totalVids + numVids;
        var numDone := CompletionsFor(rows, user, sess.id);
        totalDone := totalDone + numDone;
        fully := fully + [numVids > 0 && numDone == numVids];
        TotalsStep(sessions, rows, user, i);
      }
      assert sessions[..|sessions|] == sessions;
      progress := if totalVids > 0 then Ratio(100 * totalDone, totalVids) else Zero;
    }
  }

  /** Extending the prefix by one session adds that session's counts. */
  lemma TotalsStep(sessions: seq<Session>, rows: seq<Completion>, user: int, i: nat)
    requires i < |sessions|
    ensures TotalPresent(sessions[..i + 1]) == TotalPresent(sessions[..i]) + PresentCount(sessions[i].videos)
    ensures TotalCompleted(sessions[..i + 1], rows, user)
            == TotalCompleted(sessions[..i], rows, user) + CompletionsFor(rows, user, sessions[i].id)
  {
    assert sessions[..i + 1][..i] == sessions[..i];
  }

  /** One more completion row never lowers a session's count. */
  lemma CompletionsGrow(rows: seq<Completion>, c: Completion, user: int, sid: int)
    ensures CompletionsFor(rows + [c], user, sid) >= CompletionsFor(rows, user, sid)
    ensures c.userId != user || c.sessionId != sid ==>
              CompletionsFor(rows + [c], user, sid) == CompletionsFor(rows, user, sid)
  {
    assert (rows + [c])[..|rows|] == rows;
  }

  lemma {:induction false} TotalCompletedGrows(sessions: seq<Session>, rows: seq<Completion>, c: Completion, user: int)
    ensures TotalCompleted(sessions, rows + [c], user) >= TotalCompleted(sessions, rows, user)
  {
    if sessions != [] {
      TotalCompletedGrows(sessions[..|sessions| - 1], rows, c, user);
      CompletionsGrow(rows, c, user, sessions[|sessions| - 1].id);
    }
  }

  lemma PercentMonotone(a: nat, b: nat, present: nat)
    requires a <= b
    ensures AtMost(Percent(a, present), Percent(b, present))
  {
    if present > 0 {
      assert 100 * a * present <= 100 * b * present by {
        assert 100 * a <= 100 * b;
      }
    }
  }

  /** Marking a video complete never lowers the course progress. */
  lemma MarkingNeverLowersProgress(sessions: seq<Session>, rows: seq<Completion>, c: Completion, user: int)
    ensures AtMost(Percent(TotalCompleted(sessions, rows, user), TotalPresent(sessions)),
                   Percent(TotalCompleted(sessions, rows + [c], user), TotalPresent(sessions)))
  {
    TotalCompletedGrows(sessions, rows, c, user);
    PercentMonotone(TotalCompleted(sessions, rows, user), TotalCompleted(sessions, rows + [c], user), TotalPresent(sessions));
  }

  /** A row of another user never changes this user's progress. */
  lemma {:induction false} OtherUsersRowsIgnored(sessions: seq<Session>, rows: seq<Completion>, c: Completion, user: int)
    requires c.userId != user
    ensures TotalCompleted(sessions, rows + [c], user) == TotalCompleted(sessions, rows, user)
  {
    if sessions != [] {
      OtherUsersRowsIgnored(sessions[..|sessions| - 1], rows, c, user);
      CompletionsGrow(rows, c, user, sessions[|sessions| - 1].id);
    }
  }

  /** When every session is fully completed the course shows 100. */
  lemma {:induction false} AllCompletedSums(sessions: seq<Session>, rows: seq<Completion>, user: int)
    requires forall k :: 0 <= k < |sessions| ==> FullyCompleted(sessions[k], rows, user)
    ensures TotalCompleted(sessions, rows, user) == TotalPresent(sessions)
    ensures sessions != [] ==> TotalPresent(sessions) > 0
  {
    if sessions != [] {
      var init := sessions[..|sessions| - 1];
      assert forall k :: 0 <= k < |init| ==> init[k] == sessions[k];
      AllCompletedSums(init, rows, user);
    }
  }

  lemma AllCompletedIsHundred(sessions: seq<Session>, rows: seq<Completion>, user: int)
    requires sessions != []
    requires forall k :: 0 <= k < |sessions| ==> FullyCompleted(sessions[k], rows, user)
    ensures Percent(TotalCompleted(sessions, rows, user), TotalPresent(sessions)).num
         == 100 * Percent(TotalCompleted(sessions, rows, user), TotalPresent(sessions)).den
  {
    AllCompletedSums(sessions, rows, user);
  }

  /** The percentage is not capped: a session's one video marked complete
      under two video numbers (the second beyond the session's single video)
      gives 200. */
  lemma ProgressCanPassHundred(v: string)
    requires Present(Some(v))
    ensures var s := Session(7, 1, "S", None, false, [Some(v), None, None, None]);
            var rows := [Completion(3, 7, 1), Completion(3, 7, 2)];
            Percent(TotalCompleted([s], rows, 3), TotalPresent([s])) == Ratio(200, 1)
  {
    var slots: seq<Option<string>> := [Some(v), None, None, None];
    var s := Session(7, 1, "S", None, false, slots);
    var rows := [Completion(3, 7, 1), Completion(3, 7, 2)];
    assert PresentCount(slots) == 1 by {
      PresentCountAppend([Some(v)], [None, None, None]);
      assert [Some(v)] + [None, None, None] == slots;
      assert [Some(v)][..0] == [];
      var nones: seq<Option<string>> := [None, None, None];
      assert nones[..2][..1][..0] == [];
    }
    assert TotalPresent([s]) == 1 by {
      assert [s][..0] == [];
    }
    assert CompletionsFor(rows, 3, 7) == 2 by {
      assert rows[..1] == [Completion(3, 7, 1)];
      assert rows[..1][..0] == [];
    }
    assert TotalCompleted([s], rows, 3) == 2 by {
      assert [s][..0] == [];
    }
  }
}
