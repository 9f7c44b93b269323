/** The rules by which the admin forms fill and replace media slots (a course
    or session thumbnail, the four video slots of a session), and what each
    rule does to the media store (AI-website/app.py: `admin_add_course`,
    `admin_edit_course`, `admin_add_session`, `admin_edit_session` and the
    two delete routes). The store is the set of keys 'uploads/<name>' of the
    files the platform saved; removing a key that is not there does nothing,
    as the routes swallow the OSError of a missing file. */
module Content {
  import opened Basics
  import opened Text
  import opened Entities
  import opened Uploads
  import opened Videos

  /** The fields of one video slot in a session form: `video<i>_type`,
      `video<i>_url` (empty when absent) and `video<i>_file`. */
  datatype SlotForm = SlotForm(kind: string, url: string, file: Option<Upload>)

  /** The four slot fields of a session form. */
  type Forms = s: seq<SlotForm> | |s| == 4 witness [SlotForm("", "", None), SlotForm("", "", None),
                                                    SlotForm("", "", None), SlotForm("", "", None)]

  /** What a form does to one media slot. */
  datatype SlotEdit = Unchanged | Uploaded(upload: Upload) | Linked(url: string)

  /** A slot of `admin_add_session`: type 'url' with a non-blank URL links the
      stripped URL; type 'upload' with an accepted file stores the file;
      anything else leaves the slot empty. */
  function AddChoice(f: SlotForm): (e: SlotEdit)
    ensures e.Uploaded? ==> f.kind == "upload" && f.file == Some(e.upload) && Accepted(f.file)
    ensures e.Linked? ==> f.kind == "url" && e.url == Strip(f.url) && e.url != []
    ensures e == Unchanged <==> !(f.kind == "url" && Strip(f.url) != []) && !(f.kind == "upload" && Accepted(f.file))
  {
    if f.kind == "url" && Strip(f.url) != [] then Linked(Strip(f.url))
    else if f.kind == "upload" && Accepted(f.file) then Uploaded(f.file.value)
    else Unchanged
  }

  /** A slot of `admin_edit_session`: a supplied file decides alone (stored
      when allowed, ignored otherwise, whatever URL came with it); without
      one, a non-blank URL replaces the slot. */
  function EditChoice(f: SlotForm): (e: SlotEdit)
    ensures e.Uploaded? ==> f.file == Some(e.upload) && Accepted(f.file)
    ensures e.Linked? ==> !Supplied(f.file) && e.url == Strip(f.url) && e.url != []
    ensures e == Unchanged <==> (Supplied(f.file) && !Accepted(f.file)) || (!Supplied(f.file) && Strip(f.url) == [])
  {
    if Supplied(f.file) then
      if AllowedFile(f.file.value.filename) then Uploaded(f.file.value) else Unchanged
    else if Strip(f.url) != [] then Linked(Strip(f.url))
    else Unchanged
  }

  /** A thumbnail field: only an accepted file changes the thumbnail. */
  function ThumbChoice(f: Option<Upload>): (e: SlotEdit)
    ensures !e.Linked?
    ensures e.Uploaded? <==> Accepted(f)
    ensures e.Uploaded? ==> f == Some(e.upload)
  {
    if Accepted(f) then Uploaded(f.value) else Unchanged
  }

  /** The add rule for each of the four slots. The ensures only unfolds
      the comprehension for the proofs that use it. */
  function AddChoices(forms: Forms): (r: seq<SlotEdit>)
    ensures |r| == 4 && forall i :: 0 <= i < 4 ==> r[i] == AddChoice(forms[i])
  {
    seq(4, i requires 0 <= i < 4 => AddChoice(forms[i]))
  }

  /** The edit rule for each of the four slots. The ensures only unfolds
      the comprehension for the proofs that use it. */
  function EditChoices(forms: Forms): (r: seq<SlotEdit>)
    ensures |r| == 4 && forall i :: 0 <= i < 4 ==> r[i] == EditChoice(forms[i])
  {
    seq(4, i requires 0 <= i < 4 => EditChoice(forms[i]))
  }

  /** The value of a slot holding `current` after an edit. */
  function SlotAfter(current: Option<string>, e: SlotEdit): Option<string>
  {
    match e
    case Unchanged => current
    case Uploaded(u) => Some(StoredPath(u))
    case Linked(url) => Some(url)
  }

  /** The four slots after a run of edits, slot by slot. The ensures only
      unfolds the four-element body for the proofs that use it. */
  function SlotsAfter(current: Slots, edits: seq<SlotEdit>): (r: Slots)
    requires |edits| == 4
    ensures forall i :: 0 <= i < 4 ==> r[i] == SlotAfter(current[i], edits[i])
  {
    [SlotAfter(current[0], edits[0]), SlotAfter(current[1], edits[1]),
     SlotAfter(current[2], edits[2]), SlotAfter(current[3], edits[3])]
  }

  const NoSlots: Slots := [None, None, None, None]

  /** `os.remove` of a replaced or deleted path, done only for paths under
      'uploads/'. */
  function Release(media: set<string>, path: Option<string>): (m: set<string>)
    ensures m <= media
    ensures Managed(path) ==> path.value !in m
    ensures forall k :: k in media && k !in m ==> path == Some(k) && StartsWith(k, UploadsPrefix)
  {
    if Managed(path) then media - {path.value} else media
  }

  /** The store after an edit of a slot holding `current`: a replaced slot
      first releases its old file, then an upload is saved. */
  function MediaAfter(media: set<string>, current: Option<string>, e: SlotEdit): (m: set<string>)
    ensures e.Uploaded? ==> StoredPath(e.upload) in m
    ensures Managed(current) && e != Unchanged && !(e.Uploaded? && StoredPath(e.upload) == current.value)
            ==> current.value !in m
  {
    match e
    case Unchanged => media
    case Uploaded(u) => Release(media, current) + {StoredPath(u)}
    case Linked(_) => Release(media, current)
  }

  /** The store after the slots are edited one after the other. */
  function MediaAfterEdits(media: set<string>, current: seq<Option<string>>, edits: seq<SlotEdit>): set<string>
    requires |current| == |edits|
  {
    if edits == [] then media
    else
      var n := |edits| - 1;
      MediaAfter(MediaAfterEdits(media, current[..n], edits[..n]), current[n], edits[n])
  }

  /** The keys of the stored files among `paths`: what a delete route removes. */
  function ManagedKeys(paths: seq<Option<string>>): (keys: set<string>)
    ensures forall k :: k in keys ==> StartsWith(k, UploadsPrefix)
  {
    if paths == [] then {}
    else
      var last := paths[|paths| - 1];
      ManagedKeys(paths[..|paths| - 1]) + (if Managed(last) then {last.value} else {})
  }

  /** Removing two runs of paths removes the paths of both. */
  lemma {:induction false} ManagedKeysAppend(a: seq<Option<string>>, b: seq<Option<string>>)
    ensures ManagedKeys(a + b) == ManagedKeys(a) + ManagedKeys(b)
  {
    if b == [] {
      assert a + b == a;
    } else {
      var init := b[..|b| - 1];
      ManagedKeysAppend(a, init);
      assert (a + b)[..|a + b| - 1] == a + init;
    }
  }

  /** The video columns of a run of sessions, session after session. */
  function VideoPaths(ss: seq<Session>): (r: seq<Option<string>>)
    ensures |r| == 4 * |ss|
  {
    if ss == [] then [] else VideoPaths(ss[..|ss| - 1]) + ss[|ss| - 1].videos
  }

  /** A delete removes exactly the listed paths that lie under 'uploads/'. */
  lemma {:induction false} ManagedKeysIff(paths: seq<Option<string>>, k: string)
    ensures k in ManagedKeys(paths) <==>
      StartsWith(k, UploadsPrefix) && exists i :: 0 <= i < |paths| && paths[i] == Some(k)
  {
    if paths != [] {
      var init := paths[..|paths| - 1];
      ManagedKeysIff(init, k);
      if exists i :: 0 <= i < |paths| && paths[i] == Some(k) {
        var i :| 0 <= i < |paths| && paths[i] == Some(k);
        if i < |init| {
          assert init[i] == paths[i];
        }
      }
    }
  }

  /** A delete keeps every file that none of the listed paths names, and
      every file outside 'uploads/'. */
  lemma UnlistedKept(media: set<string>, paths: seq<Option<string>>, k: string)
    requires k in media
    requires !StartsWith(k, UploadsPrefix) || forall i :: 0 <= i < |paths| ==> paths[i] != Some(k)
    ensures k in media - ManagedKeys(paths)
  {
    ManagedKeysIff(paths, k);
  }

  /** A filled slot of a new session is always shown: it is non-blank after
      stripping, whichever way it was filled. */
  lemma AddedSlotShown(f: SlotForm)
    ensures Present(SlotAfter(None, AddChoice(f))) <==>
      (f.kind == "url" && Strip(f.url) != []) || (f.kind == "upload" && Accepted(f.file))
  {
    if f.kind == "url" && Strip(f.url) != [] {
      assert AddChoice(f) == Linked(Strip(f.url));
      StrippedShown(f.url);
    } else if f.kind == "upload" && Accepted(f.file) {
      assert AddChoice(f) == Uploaded(f.file.value);
      StoredPathManaged(f.file.value);
    } else {
      assert AddChoice(f) == Unchanged;
    }
  }

  /** An edit never blanks a slot that shows a video, and it fills an empty
      slot exactly when the form carries an accepted file or a non-blank URL
      without a file. */
  lemma EditNeverBlanks(current: Option<string>, f: SlotForm)
    ensures Present(current) ==> Present(SlotAfter(current, EditChoice(f)))
    ensures EditChoice(f) != Unchanged <==>
      Accepted(f.file) || (!Supplied(f.file) && Strip(f.url) != [])
    ensures EditChoice(f) != Unchanged ==> Present(SlotAfter(current, EditChoice(f)))
  {
    if Supplied(f.file) {
      if AllowedFile(f.file.value.filename) {
        assert EditChoice(f) == Uploaded(f.file.value);
        StoredPathManaged(f.file.value);
      } else {
        assert EditChoice(f) == Unchanged;
      }
    } else if Strip(f.url) != [] {
      assert EditChoice(f) == Linked(Strip(f.url));
      StrippedShown(f.url);
    } else {
      assert EditChoice(f) == Unchanged;
    }
  }

  /** A supplied file of a disallowed type leaves the slot and the store as
      they were, even when a URL came with it. */
  lemma DisallowedUploadIgnoresUrl(current: Option<string>, media: set<string>, f: SlotForm)
    requires Supplied(f.file) && !AllowedFile(f.file.value.filename)
    ensures SlotAfter(current, EditChoice(f)) == current
    ensures MediaAfter(media, current, EditChoice(f)) == media
  {
  }

  /** An edit removes at most the slot's old file, and only when that lies
      under 'uploads/'; it adds at most the uploaded file. */
  lemma MediaAfterBounds(media: set<string>, current: Option<string>, e: SlotEdit)
    ensures forall k :: k in media && k !in MediaAfter(media, current, e) ==>
      e != Unchanged && current == Some(k) && StartsWith(k, UploadsPrefix)
    ensures forall k :: k in MediaAfter(media, current, e) && k !in media ==>
      e.Uploaded? && k == StoredPath(e.upload)
  {
  }

  /** No run of slot edits removes a file outside 'uploads/'. */
  lemma {:induction false} ForeignMediaKept(media: set<string>, current: seq<Option<string>>,
                                           edits: seq<SlotEdit>, k: string)
    requires |current| == |edits|
    requires k in media && !StartsWith(k, UploadsPrefix)
    ensures k in MediaAfterEdits(media, current, edits)
  {
    if edits != [] {
      var n := |edits| - 1;
      ForeignMediaKept(media, current[..n], edits[..n], k);
      MediaAfterBounds(MediaAfterEdits(media, current[..n], edits[..n]), current[n], edits[n]);
    }
  }

  /** Filling empty slots only adds files: the store after a new session's
      slots is the old one plus the stored uploads. */
  lemma {:induction false} AddOnlySaves(media: set<string>, edits: seq<SlotEdit>, k: string)
    requires k in media
    ensures k in MediaAfterEdits(media, seq(|edits|, i => None), edits)
  {
    if edits != [] {
      var n := |edits| - 1;
      var none: seq<Option<string>> := seq(|edits|, i => None);
      assert none[..n] == seq(n, i => None);
      AddOnlySaves(media, edits[..n], k);
    }
  }

  /** Two slots edited in one form can share a file name: the upload saved
      for slot 1 is released again when slot 2, which held that path, is
      replaced by a URL, and slot 1 then names a file that is gone. */
  lemma SharedPathReleased(media: set<string>, link: string)
    requires Strip(link) != []
    ensures var u := Upload("a.mp4", "a.mp4");
            var current := [None, Some(StoredPath(u))];
            var edits := [Uploaded(u), Linked(link)];
            && SlotAfter(current[0], edits[0]) == Some(StoredPath(u))
            && StoredPath(u) !in MediaAfterEdits(media, current, edits)
  {
    var u := Upload("a.mp4", "a.mp4");
    var current: seq<Option<string>> := [None, Some(StoredPath(u))];
    var edits := [Uploaded(u), Linked(link)];
    StoredPathManaged(u);
    assert current[..1][..0] == [] && edits[..1][..0] == [];
    assert MediaAfterEdits(media, current[..1], edits[..1]) == media + {StoredPath(u)};
  }
}
