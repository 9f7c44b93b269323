/** Which videos of a session are shown, and which one a request selects
    (AI-website/app.py, `session_detail` and the slot count in
    `course_detail`). Blank slots are skipped and the remaining ones are
    numbered from 1 in slot order. */
module Videos {
  import opened Basics
  import opened Text
  import opened Entities

  /** `url and url.strip()`: the slot holds a non-blank value. */
  predicate Present(slot: Option<string>)
  {
    slot.Some? && Strip(slot.value) != []
  }

  /** `valid_vids`: the values of the present slots, in slot order. */
  function ValidVideos(slots: seq<Option<string>>): (r: seq<string>)
    ensures |r| <= |slots|
  {
    if slots == [] then []
    else (if Present(slots[0]) then [slots[0].value] else []) + ValidVideos(slots[1..])
  }

  /** `sum(1 for url in session_vids if url and url.strip())`: the number of
      present slots, as the progress computation counts them. */
  function PresentCount(slots: seq<Option<string>>): (n: nat)
    ensures n <= |slots|
  {
    if slots == [] then 0
    else PresentCount(slots[..|slots| - 1]) + (if Present(slots[|slots| - 1]) then 1 else 0)
  }

  lemma {:induction false} PresentCountAppend(a: seq<Option<string>>, b: seq<Option<string>>)
    ensures PresentCount(a + b) == PresentCount(a) + PresentCount(b)
  {
    if b != [] {
      assert (a + b)[..|a + b| - 1] == a + b[..|b| - 1];
      PresentCountAppend(a, b[..|b| - 1]);
    } else {
      assert a + b == a;
    }
  }

  /** The video list of `session_detail` is as long as the count of
      `course_detail`: both pages agree on how many videos a session has. */
  lemma {:induction false} ValidVideosCount(slots: seq<Option<string>>)
    ensures |ValidVideos(slots)| == PresentCount(slots)
  {
    if slots != [] {
      ValidVideosCount(slots[1..]);
      PresentCountAppend([slots[0]], slots[1..]);
      assert [slots[0]] + slots[1..] == slots;
      assert PresentCount([slots[0]]) == if Present(slots[0]) then 1 else 0 by {
        assert [slots[0]][..0] == [];
      }
    }
  }

  /** The filter keeps slot order: the videos of two runs of slots are the
      videos of the first followed by those of the second. */
  lemma {:induction false} ValidVideosAppend(a: seq<Option<string>>, b: seq<Option<string>>)
    ensures ValidVideos(a + b) == ValidVideos(a) + ValidVideos(b)
  {
    if a == [] {
      assert a + b == b;
    } else {
      var head := if Present(a[0]) then [a[0].value] else [];
      assert (a + b)[0] == a[0] && (a + b)[1..] == a[1..] + b;
      assert ValidVideos(a + b) == head + ValidVideos(a[1..] + b);
      ValidVideosAppend(a[1..], b);
    }
  }

  /** The slot that video number k + 1 comes from: the first present slot
      with exactly k present slots before it. */
  function SlotOf(slots: seq<Option<string>>, k: nat): (j: nat)
    requires k < |ValidVideos(slots)|
    ensures j < |slots| && Present(slots[j])
    ensures PresentCount(slots[..j]) == k
    ensures ValidVideos(slots)[k] == slots[j].value
  {
    if Present(slots[0]) && k == 0 then
      SlotOfFirst(slots);
      0
    else
      var k' := k - (if Present(slots[0]) then 1 else 0);
      SlotOfRest(slots, k, k');
      var j' := SlotOf(slots[1..], k');
      SlotOfStep(slots, k, k', j');
      j' + 1
  }

  /** Video number 1 comes from the first slot when that slot is present. */
  lemma SlotOfFirst(slots: seq<Option<string>>)
    requires slots != [] && Present(slots[0])
    ensures PresentCount(slots[..0]) == 0
    ensures ValidVideos(slots)[0] == slots[0].value
  {
    assert slots[..0] == [];
  }

  /** Otherwise video number k + 1 is video number k' + 1 of the later slots,
      where k' discounts the first slot when it is present. */
  lemma SlotOfRest(slots: seq<Option<string>>, k: nat, k': int)
    requires k < |ValidVideos(slots)|
    requires !(Present(slots[0]) && k == 0)
    requires k' == k - (if Present(slots[0]) then 1 else 0)
    ensures 0 <= k' < |ValidVideos(slots[1..])|
    ensures ValidVideos(slots)[k] == ValidVideos(slots[1..])[k']
  {
    var head := if Present(slots[0]) then [slots[0].value] else [];
    assert ValidVideos(slots) == head + ValidVideos(slots[1..]);
  }

  /** A slot found among the later slots, moved one place on. */
  lemma SlotOfStep(slots: seq<Option<string>>, k: nat, k': nat, j': nat)
    requires 0 < |slots| && j' < |slots| - 1
    requires k' == k - (if Present(slots[0]) then 1 else 0)
    requires PresentCount(slots[1..][..j']) == k'
    ensures PresentCount(slots[..j' + 1]) == k
    ensures slots[1..][j'] == slots[j' + 1]
  {
    assert slots[..j' + 1] == [slots[0]] + slots[1..][..j'];
    PresentCountAppend([slots[0]], slots[1..][..j']);
    assert [slots[0]][..0] == [];
  }

  /** Every shown video is the value of a slot and is not blank. */
  lemma ShownFromSlots(slots: seq<Option<string>>)
    ensures forall k :: 0 <= k < |ValidVideos(slots)| ==>
      Some(ValidVideos(slots)[k]) in slots && Present(Some(ValidVideos(slots)[k]))
  {
    forall k | 0 <= k < |ValidVideos(slots)|
      ensures Some(ValidVideos(slots)[k]) in slots && Present(Some(ValidVideos(slots)[k]))
    {
      var j := SlotOf(slots, k);
      assert slots[j] == Some(ValidVideos(slots)[k]);
    }
  }

  /** Every present slot is shown, at the position given by the number of
      present slots before it. */
  lemma {:induction false} PresentSlotShown(slots: seq<Option<string>>, j: nat)
    requires j < |slots| && Present(slots[j])
    ensures PresentCount(slots[..j]) < |ValidVideos(slots)|
    ensures ValidVideos(slots)[PresentCount(slots[..j])] == slots[j].value
  {
    assert slots == slots[..j] + [slots[j]] + slots[j + 1..];
    ValidVideosAppend(slots[..j] + [slots[j]], slots[j + 1..]);
    ValidVideosAppend(slots[..j], [slots[j]]);
    ValidVideosCount(slots[..j]);
    assert ValidVideos([slots[j]]) == [slots[j].value];
  }

  /** What `session_detail` shows for a requested video number. */
  datatype VideoChoice = AccessDenied | InvalidIndex | Playing(url: string, total: nat)

  /** A paid session needs a grant, checked before the video number; the
      number must lie in 1 .. the count of present slots. */
  function SelectVideo(s: Session, hasAccess: bool, index: int): (v: VideoChoice)
    ensures v.AccessDenied? <==> !s.isFree && !hasAccess
    ensures v.InvalidIndex? <==> (s.isFree || hasAccess) && !(1 <= index <= PresentCount(s.videos))
    ensures v.Playing? ==> v.total == PresentCount(s.videos)
    ensures v.Playing? ==>
      exists j :: 0 <= j < 4 && s.videos[j] == Some(v.url) && Present(s.videos[j])
                  && PresentCount(s.videos[..j]) == index - 1
  {
    ValidVideosCount(s.videos);
    if !s.isFree && !hasAccess then AccessDenied
    else
      var valid := ValidVideos(s.videos);
      if !(1 <= index <= |valid|) then InvalidIndex
      else
        var j := SlotOf(s.videos, index - 1);
        Playing(valid[index - 1], |valid|)
  }

  /** A session with slots [A, "", C, blank]: two videos, A then C; video 2
      is C and video 3 does not exist. */
  lemma GapsAreCompacted(a: string, c: string)
    requires Strip(a) != [] && Strip(c) != []
    ensures var s := Session(1, 1, "S", None, true, [Some(a), Some(""), Some(c), Some(" ")]);
      && ValidVideos(s.videos) == [a, c]
      && SelectVideo(s, false, 2) == Playing(c, 2)
      && SelectVideo(s, false, 3) == InvalidIndex
  {
    var slots: seq<Option<string>> := [Some(a), Some(""), Some(c), Some(" ")];
    var s := Session(1, 1, "S", None, true, slots);
    CompactedSlots(a, c);
    ValidVideosCount(slots);
    assert SelectVideo(s, false, 2) == Playing(c, 2);
  }

  lemma CompactedSlots(a: string, c: string)
    requires Strip(a) != [] && Strip(c) != []
    ensures ValidVideos([Some(a), Some(""), Some(c), Some(" ")]) == [a, c]
  {
    var slots: seq<Option<string>> := [Some(a), Some(""), Some(c), Some(" ")];
    BlankSlots();
    assert ValidVideos(slots[3..]) == [] by {
      assert slots[3..][1..] == [];
    }
    assert ValidVideos(slots[2..]) == [c] by {
      assert slots[2..][1..] == slots[3..];
    }
    assert ValidVideos(slots[1..]) == [c] by {
      assert slots[1..][1..] == slots[2..];
    }
    assert ValidVideos(slots) == [a] + ValidVideos(slots[1..]);
  }

  /** An empty slot and a slot holding one space are not shown. */
  lemma BlankSlots()
    ensures !Present(Some("")) && !Present(Some(" "))
  {
    var blank := " ";
    assert AllSpace(blank, StrSpaces) by {
      assert |blank| == 1 && IsSpace(blank[0]);
    }
    StripEmptyIff(blank);
    StripEmptyIff("");
  }

  /** A stripped, non-blank URL stored in a slot is shown. */
  lemma StrippedShown(url: string)
    requires Strip(url) != []
    ensures Present(Some(Strip(url)))
  {
    StripIdempotent(url);
  }
}
