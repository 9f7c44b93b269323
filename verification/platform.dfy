/** The platform's row store and the routes that change or read it
    (AI-website/app.py). Each table is a sequence of rows in insertion order;
    ids come from one counter per table, so they increase along the table.
    The media store is the set of keys of the files saved under
    'uploads/'. The clock, the random reset token, the uuid suffix of an
    account code, the password hash and `secure_filename` are inputs. */
module Platform {
  import opened Basics
  import opened Text
  import opened Entities
  import opened Uploads
  import opened Videos
  import opened Progress
  import opened Grading
  import opened Catalog
  import opened Content

  /** A reset link lives one hour, in seconds. */
  const ResetLifetime: int := 3600

  /** The fixed part of every account code. */
  const CodePrefix: string := "AI-YOUTH-"

  /** Users in table order: increasing ids, and the unique email and account
      code columns. */
  predicate UsersApart(a: User, b: User)
  {
    a.id < b.id && a.email != b.email && a.accountCode != b.accountCode
  }

  predicate SessionIdBefore(a: Session, b: Session)
  {
    a.id < b.id
  }

  predicate QuizIdBefore(a: Quiz, b: Quiz)
  {
    a.id < b.id
  }

  /** Grants and completions are only added when absent. */
  predicate AccessApart(a: Access, b: Access)
  {
    a != b
  }

  predicate CompletionsApart(a: Completion, b: Completion)
  {
    a != b
  }

  /** One attempt per user and session. */
  predicate AttemptsApart(a: Attempt, b: Attempt)
  {
    a.userId != b.userId || a.sessionId != b.sessionId
  }

  /** The unique token column. */
  predicate TokensApart(a: ResetToken, b: ResetToken)
  {
    a.token != b.token
  }

  predicate HasUserId(users: seq<User>, id: int)
  {
    exists j :: 0 <= j < |users| && users[j].id == id
  }

  /** Every reset token belongs to an existing user. */
  predicate TokensOwned(tokens: seq<ResetToken>, users: seq<User>)
  {
    forall i :: 0 <= i < |tokens| ==> HasUserId(users, tokens[i].userId)
  }

  lemma OwnersKept(tokens: seq<ResetToken>, users: seq<User>, users': seq<User>)
    requires TokensOwned(tokens, users)
    requires |users| <= |users'| && forall j :: 0 <= j < |users| ==> users'[j].id == users[j].id
    ensures TokensOwned(tokens, users')
  {
    forall i | 0 <= i < |tokens| ensures HasUserId(users', tokens[i].userId) {
      var j :| 0 <= j < |users| && users[j].id == tokens[i].userId;
      assert users'[j].id == tokens[i].userId;
    }
  }

  function CourseWithId(id: int): Course -> bool { (c: Course) => c.id == id }
  function SessionWithId(id: int): Session -> bool { (s: Session) => s.id == id }
  function UserWithId(id: int): User -> bool { (u: User) => u.id == id }
  function UserWithEmail(email: string): User -> bool { (u: User) => u.email == email }
  function AttemptFor(user: int, sid: int): Attempt -> bool
  {
    (a: Attempt) => a.userId == user && a.sessionId == sid
  }
  function IsGrant(g: Access): Access -> bool { (a: Access) => a == g }
  /** `filter_by(token=token).filter(expires_at > now)`. */
  function Unexpired(token: string, now: int): ResetToken -> bool
  {
    (t: ResetToken) => t.token == token && t.expiresAt > now
  }
  function InCourse(cid: int): Session -> bool { (s: Session) => s.courseId == cid }
  function OutsideCourse(cid: int): Session -> bool { (s: Session) => s.courseId != cid }
  function QuizOf(sid: int): Quiz -> bool { (q: Quiz) => q.sessionId == sid }
  function QuizOutside(gone: set<int>): Quiz -> bool { (q: Quiz) => q.sessionId !in gone }
  function CompletionOutside(gone: set<int>): Completion -> bool
  {
    (c: Completion) => c.sessionId !in gone
  }
  function AttemptOutside(gone: set<int>): Attempt -> bool { (a: Attempt) => a.sessionId !in gone }
  function AccessOutside(cid: int): Access -> bool { (a: Access) => a.courseId != cid }

  /** `course.sessions`, in table order. */
  function SessionsOf(sessions: seq<Session>, cid: int): (r: seq<Session>)
    ensures forall s :: s in r <==> s in sessions && s.courseId == cid
  {
    Keep(sessions, InCourse(cid))
  }

  /** The ids of a run of sessions: the rows a cascade reaches. */
  function IdsOf(ss: seq<Session>): (ids: set<int>)
    ensures forall s :: s in ss ==> s.id in ids
  {
    set s | s in ss :: s.id
  }

  /** `sess.quizzes`, in table order. */
  function QuizzesOf(quizzes: seq<Quiz>, sid: int): (r: seq<Quiz>)
    ensures forall q :: q in r <==> q in quizzes && q.sessionId == sid
  {
    Keep(quizzes, QuizOf(sid))
  }

  /** `request.form.get(key, 0, type=int)`: 0 when the field is absent or
      `int()` rejects it. */
  function FormInt(field: Option<string>): (n: int)
    ensures n != 0 ==> field.Some? && ParseInt(field.value) == Some(n)
    ensures field.Some? && ParseInt(field.value).Some? ==> n == ParseInt(field.value).value
  {
    match field
    case None => 0
    case Some(text) =>
      match ParseInt(text)
      case None => 0
      case Some(n) => n
  }

  /** An absent or empty field reads as 0; an integer rendered within the
      digit limit reads back as itself. */
  lemma FormIntValues(n: int)
    requires ShownDigits(n) <= MaxStrDigits
    ensures FormInt(None) == 0 && FormInt(Some("")) == 0
    ensures FormInt(Some(Show(n))) == n
  {
    FormIntBlank();
    ParseShow(n);
    FormIntReads(Show(n), n);
  }

  lemma FormIntBlank()
    ensures FormInt(None) == 0 && FormInt(Some("")) == 0
  {
    assert IntStrip("") == [];
  }

  lemma FormIntReads(s: string, n: int)
    requires ParseInt(s) == Some(n)
    ensures FormInt(Some(s)) == n
  {
  }

  /** A field with more digits than `int()` reads makes it raise, and
      `type=int` falls back to 0. */
  lemma FormIntTooLong(s: string, d: string)
    requires DigitString(d) && IntStrip(s) == d && DigitCount(d) > MaxStrDigits
    ensures FormInt(Some(s)) == 0
  {
    ParseTooManyDigits(s, d);
  }

  /** Every row left after removing one was there before. */
  lemma RemovedAreKept<T>(s: seq<T>, k: nat)
    requires k < |s|
    ensures forall x :: x in s[..k] + s[k + 1..] ==> x in s
  {
    forall x | x in s[..k] + s[k + 1..] ensures x in s {
      if x in s[..k] {
        var i :| 0 <= i < k && s[..k][i] == x;
        assert s[i] == x;
      } else {
        var i :| 0 <= i < |s| - k - 1 && s[k + 1..][i] == x;
        assert s[k + 1 + i] == x;
      }
    }
  }

  /** Changing one user's password hash keeps the unique columns, and every
      other row. */
  lemma RehashKeeps(users: seq<User>, k: nat, hash: string, next: int)
    requires Pairwise(users, UsersApart) && k < |users|
    requires forall u :: u in users ==> u.id < next
    ensures var users' := users[k := users[k].(passwordHash := hash)];
      && Pairwise(users', UsersApart)
      && (forall u :: u in users' ==> u.id < next)
      && forall i :: 0 <= i < |users| ==>
           users'[i] == if users[i].id == users[k].id then users[i].(passwordHash := hash) else users[i]
  {
    var updated := users[k].(passwordHash := hash);
    forall i | 0 <= i < |users| && i != k
      ensures UsersApart(users[i], updated) || UsersApart(updated, users[i])
      ensures users[i].id != users[k].id
    {
      if i < k {
        assert UsersApart(users[i], users[k]);
      } else {
        assert UsersApart(users[k], users[i]);
      }
    }
    PairwiseReplace(users, k, updated, UsersApart);
    var users' := users[k := updated];
    forall u | u in users' ensures u.id < next {
      var i :| 0 <= i < |users'| && users'[i] == u;
      assert u.id == users[i].id;
    }
  }

  /** Deleting one token row keeps the table's constraints and leaves no row
      with that token string. */
  lemma TokenDeleteKeeps(tokens: seq<ResetToken>, t: nat, users: seq<User>, users': seq<User>)
    requires Pairwise(tokens, TokensApart) && TokensOwned(tokens, users) && t < |tokens|
    requires |users| <= |users'| && forall j :: 0 <= j < |users| ==> users'[j].id == users[j].id
    ensures var rest := tokens[..t] + tokens[t + 1..];
      && Pairwise(rest, TokensApart)
      && TokensOwned(rest, users')
      && forall i :: 0 <= i < |rest| ==> rest[i].token != tokens[t].token
  {
    var rest := tokens[..t] + tokens[t + 1..];
    PairwiseRemove(tokens, t, TokensApart);
    forall i | 0 <= i < |rest|
      ensures HasUserId(users, rest[i].userId)
      ensures rest[i].token != tokens[t].token
    {
      var i' := if i < t then i else i + 1;
      assert rest[i] == tokens[i'];
      if i' < t {
        assert TokensApart(tokens[i'], tokens[t]);
      } else {
        assert TokensApart(tokens[t], tokens[i']);
      }
    }
    OwnersKept(rest, users, users');
  }
  /** Deleting the grant at `k` deletes that grant and no other: grants are
      distinct, so it occurs nowhere else. */
  lemma GrantRemoved(access: seq<Access>, k: nat)
    requires Pairwise(access, AccessApart) && k < |access|
    ensures var rest := access[..k] + access[k + 1..];
      && Pairwise(rest, AccessApart)
      && access[k] !in rest
      && forall x :: x != access[k] ==> (x in rest <==> x in access)
  {
    PairwiseRemove(access, k, AccessApart);
    RemovedAreKept(access, k);
    var rest := access[..k] + access[k + 1..];
    forall i | 0 <= i < |rest| ensures rest[i] != access[k] {
      if i < k {
        assert rest[i] == access[i] && AccessApart(access[i], access[k]);
      } else {
        assert rest[i] == access[i + 1] && AccessApart(access[k], access[i + 1]);
      }
    }
    forall x | x != access[k] && x in access ensures x in rest {
      var i :| 0 <= i < |access| && access[i] == x;
      if i < k {
        assert rest[i] == x;
      } else {
        assert rest[i - 1] == x;
      }
    }
  }


  /** The whole store as one value. */
  datatype Db = Db(users: seq<User>, courses: seq<Course>, sessions: seq<Session>,
                   quizzes: seq<Quiz>, access: seq<Access>, completions: seq<Completion>,
                   attempts: seq<Attempt>, tokens: seq<ResetToken>, media: set<string>,
                   nextUserId: int, nextCourseId: int, nextSessionId: int, nextQuizId: int)

  datatype RegisterOutcome = EmailTaken | CodeTaken | Registered(id: int)
  datatype SubmitOutcome = NoSession | AnswerRaised | Scored(score: nat, total: nat)
  datatype IssueOutcome = NoAccount | TokenTaken | Issued(userId: int)
  datatype ResetOutcome = InvalidLink | Mismatch | PasswordReset(userId: int)
  datatype CourseOutcome = ThumbnailRequired | InvalidType | NoCourse | CourseSaved(id: int)
  datatype SessionOutcome = MissingFields | BadCourseId | NoSessionRow | SessionSaved(id: int)
  datatype QuizOutcome = QuizFieldsMissing | CorrectRaised | QuizAdded(id: int)
  datatype SessionPage = SessionNotFound | Locked | BadIndex
                       | Page(url: string, total: nat, completed: bool, quizzes: seq<Quiz>)
  datatype CourseView = CourseNotFound
                      | CourseShown(course: Course, sessions: seq<Session>, hasAccess: bool,
                                    progress: Ratio, fully: seq<bool>)

  /** The removals of one session's video columns, slot by slot, each only
      when it lies under 'uploads/'. */
  method ReleaseVideos(media: set<string>, videos: seq<Option<string>>) returns (m: set<string>)
    ensures m == media - ManagedKeys(videos)
  {
    m := media;
    assert videos[..0] == [];
    for i := 0 to |videos|
      invariant m == media - ManagedKeys(videos[..i])
    {
      if Managed(videos[i]) {
        m := m - {videos[i].value};
      }
      assert videos[..i + 1][..i] == videos[..i];
    }
    assert videos[..|videos|] == videos;
  }

  /** The file removals of `admin_delete_course`: the course thumbnail, then
      the videos of each session in turn. */
  method ReleaseCourseFiles(media: set<string>, thumbnail: Option<string>, own: seq<Session>)
    returns (m: set<string>)
    ensures m == media - ManagedKeys([thumbnail] + VideoPaths(own))
  {
    m := media;
    if Managed(thumbnail) {
      m := m - {thumbnail.value};
    }
    assert [thumbnail][..0] == [];
    for s := 0 to |own|
      invariant m == media - ManagedKeys([thumbnail] + VideoPaths(own[..s]))
    {
      ghost var done := [thumbnail] + VideoPaths(own[..s]);
      m := ReleaseVideos(m, own[s].videos);
      ManagedKeysAppend(done, own[s].videos);
      assert own[..s + 1][..s] == own[..s];
      assert done + own[s].videos == [thumbnail] + VideoPaths(own[..s + 1]);
    }
    assert own[..|own|] == own;
  }

  /** The file removals of `admin_delete_session`: the four videos, then the
      thumbnail. */
  method ReleaseSessionFiles(media: set<string>, s: Session) returns (m: set<string>)
    ensures m == media - ManagedKeys(s.videos + [s.thumbnail])
  {
    m := ReleaseVideos(media, s.videos);
    if Managed(s.thumbnail) {
      m := m - {s.thumbnail.value};
    }
    ManagedKeysAppend(s.videos, [s.thumbnail]);
    assert [s.thumbnail][..0] == [];
  }

  /** A thumbnail field on a course or session form: an accepted file is
      saved and replaces the thumbnail, whose old file is removed when it
      lies under 'uploads/'. */
  method SaveThumbnail(media: set<string>, current: Option<string>, thumb: Option<Upload>)
    returns (slot: Option<string>, m: set<string>)
    ensures slot == SlotAfter(current, ThumbChoice(thumb))
    ensures m == MediaAfter(media, current, ThumbChoice(thumb))
  {
    slot, m := current, media;
    if Accepted(thumb) {
      m := Release(m, current);
      var path := StoredPath(thumb.value);
      m := m + {path};
      slot := Some(path);
    }
  }

  /** One more slot of a run of edits: the store after slots 0 .. i. */
  lemma MediaAfterEditsStep(media: set<string>, current: seq<Option<string>>, edits: seq<SlotEdit>, i: nat)
    requires |current| == |edits| && i < |edits|
    ensures MediaAfterEdits(media, current[..i + 1], edits[..i + 1])
         == MediaAfter(MediaAfterEdits(media, current[..i], edits[..i]), current[i], edits[i])
  {
    assert current[..i + 1][..i] == current[..i] && edits[..i + 1][..i] == edits[..i];
  }

  /** One slot of `admin_add_session`: a non-blank URL of type 'url' is kept
      stripped, an accepted upload of type 'upload' is saved. */
  method FillSlot(media: set<string>, f: SlotForm) returns (slot: Option<string>, m: set<string>)
    ensures slot == SlotAfter(None, AddChoice(f))
    ensures m == MediaAfter(media, None, AddChoice(f))
  {
    slot, m := None, media;
    if f.kind == "url" && Strip(f.url) != [] {
      slot := Some(Strip(f.url));
    } else if f.kind == "upload" && Accepted(f.file) {
      var path := StoredPath(f.file.value);
      m := m + {path};
      slot := Some(path);
    }
  }

  /** The slot loop of `admin_add_session`: `paths` starts empty and each
      slot is filled by its form fields, saving uploads as it goes. */
  method FillSlots(media: set<string>, forms: Forms) returns (paths: Slots, m: set<string>)
    ensures paths == SlotsAfter(NoSlots, AddChoices(forms))
    ensures m == MediaAfterEdits(media, NoSlots, AddChoices(forms))
  {
    var p: seq<Option<string>> := NoSlots;
    m := media;
    ghost var edits := AddChoices(forms);
    for i := 0 to 4
      invariant |p| == 4
      invariant forall j :: 0 <= j < i ==> p[j] == SlotAfter(NoSlots[j], edits[j])
      invariant forall j :: i <= j < 4 ==> p[j] == NoSlots[j]
      invariant m == MediaAfterEdits(media, NoSlots[..i], edits[..i])
    {
      MediaAfterEditsStep(media, NoSlots, edits, i);
      var slot;
      slot, m := FillSlot(m, forms[i]);
      p := p[i := slot];
    }
    assert NoSlots[..4] == NoSlots && edits[..4] == edits;
    paths := p;
  }

  /** One slot of `admin_edit_session`: a supplied file decides (an allowed
      one replaces the slot, releasing the old file); without one, a
      non-blank URL replaces the slot. */
  method EditSlot(media: set<string>, currentPath: Option<string>, f: SlotForm)
    returns (slot: Option<string>, m: set<string>)
    ensures slot == SlotAfter(currentPath, EditChoice(f))
    ensures m == MediaAfter(media, currentPath, EditChoice(f))
  {
    slot, m := currentPath, media;
    if Supplied(f.file) {
      if AllowedFile(f.file.value.filename) {
        m := Release(m, currentPath);
        var path := StoredPath(f.file.value);
        m := m + {path};
        slot := Some(path);
      }
    } else if Strip(f.url) != [] {
      m := Release(m, currentPath);
      slot := Some(Strip(f.url));
    }
  }

  /** The slot loop of `admin_edit_session`: each slot is replaced or kept by
      its form fields, releasing the replaced file first. */
  method EditSlots(media: set<string>, current: Slots, forms: Forms) returns (videos: Slots, m: set<string>)
    ensures videos == SlotsAfter(current, EditChoices(forms))
    ensures m == MediaAfterEdits(media, current, EditChoices(forms))
  {
    var v: seq<Option<string>> := current;
    m := media;
    ghost var edits := EditChoices(forms);
    for i := 0 to 4
      invariant |v| == 4
      invariant forall j :: 0 <= j < i ==> v[j] == SlotAfter(current[j], edits[j])
      invariant forall j :: i <= j < 4 ==> v[j] == current[j]
      invariant m == MediaAfterEdits(media, current[..i], edits[..i])
    {
      MediaAfterEditsStep(media, current, edits, i);
      var slot;
      slot, m := EditSlot(m, v[i], forms[i]);
      v := v[i := slot];
    }
    assert current[..4] == current && edits[..4] == edits;
    videos := v;
  }

  class Store {
    var users: seq<User>
    var courses: seq<Course>
    var sessions: seq<Session>
    var quizzes: seq<Quiz>
    var access: seq<Access>
    var completions: seq<Completion>
    var attempts: seq<Attempt>
    var tokens: seq<ResetToken>
    var media: set<string>
    var nextUserId: int
    var nextCourseId: int
    var nextSessionId: int
    var nextQuizId: int

    function Snapshot(): Db
      reads this
    {
      Db(users, courses, sessions, quizzes, access, completions, attempts, tokens, media,
         nextUserId, nextCourseId, nextSessionId, nextQuizId)
    }

    /** The constraints of the schema, and ids below their counters. */
    ghost predicate Valid()
      reads this
    {
      && Pairwise(users, UsersApart) && (forall u :: u in users ==> u.id < nextUserId)
      && Pairwise(courses, CourseIdBefore) && (forall c :: c in courses ==> c.id < nextCourseId)
      && Pairwise(sessions, SessionIdBefore) && (forall s :: s in sessions ==> s.id < nextSessionId)
      && Pairwise(quizzes, QuizIdBefore) && (forall q :: q in quizzes ==> q.id < nextQuizId)
      && Pairwise(access, AccessApart)
      && Pairwise(completions, CompletionsApart)
      && Pairwise(attempts, AttemptsApart)
      && Pairwise(tokens, TokensApart)
      && TokensOwned(tokens, users)
    }

    constructor()
      ensures Valid()
      ensures Snapshot() == Db([], [], [], [], [], [], [], [], {}, 1, 1, 1, 1)
    {
      users, courses, sessions, quizzes := [], [], [], [];
      access, completions, attempts, tokens := [], [], [], [];
      media := {};
      nextUserId, nextCourseId, nextSessionId, nextQuizId := 1, 1, 1, 1;
    }

    function CourseAt(id: int): (r: Option<nat>)
      reads this
      ensures r.None? <==> forall i :: 0 <= i < |courses| ==> courses[i].id != id
      ensures r.Some? ==> r.value < |courses| && courses[r.value].id == id
    {
      FirstIndex(courses, CourseWithId(id))
    }

    function SessionAt(id: int): (r: Option<nat>)
      reads this
      ensures r.None? <==> forall i :: 0 <= i < |sessions| ==> sessions[i].id != id
      ensures r.Some? ==> r.value < |sessions| && sessions[r.value].id == id
    {
      FirstIndex(sessions, SessionWithId(id))
    }

    function UserByEmail(email: string): (r: Option<nat>)
      reads this
      ensures r.None? <==> forall i :: 0 <= i < |users| ==> users[i].email != email
      ensures r.Some? ==> r.value < |users| && users[r.value].email == email
    {
      FirstIndex(users, UserWithEmail(email))
    }

    /** A token row that is still valid at `now`. */
    function LiveToken(token: string, now: int): (r: Option<nat>)
      reads this
      ensures r.None? <==> forall i :: 0 <= i < |tokens| ==> !(tokens[i].token == token && tokens[i].expiresAt > now)
      ensures r.Some? ==> r.value < |tokens| && tokens[r.value].token == token && tokens[r.value].expiresAt > now
    {
      FirstIndex(tokens, Unexpired(token, now))
    }

    /** The reset link for `token` is accepted at `now`: a row holds that
        token and expires strictly after `now`. */
    predicate TokenValid(token: string, now: int)
      reads this
      ensures TokenValid(token, now) <==> LiveToken(token, now).Some?
    {
      exists i :: 0 <= i < |tokens| && tokens[i].token == token && tokens[i].expiresAt > now
    }

    predicate CodeInUse(code: string)
      reads this
    {
      exists i :: 0 <= i < |users| && users[i].accountCode == code
    }

    /** `register` (POST): a taken email is refused before anything is
        written; a fresh one adds a non-admin user with code
        'AI-YOUTH-' + suffix, where the suffix is the six upper-cased hex
        digits of a uuid. A code that happens to be taken makes the unique
        constraint fail and nothing is written. */
    method Register(name: string, email: string, passwordHash: string, suffix: string)
      returns (r: RegisterOutcome)
      requires Valid()
      modifies this
      ensures Valid()
      ensures r.EmailTaken? <==> old(UserByEmail(email)).Some?
      ensures r.CodeTaken? <==> old(UserByEmail(email)).None? && old(CodeInUse(CodePrefix + suffix))
      ensures !r.Registered? ==> Snapshot() == old(Snapshot())
      ensures r.Registered? ==> r.id == old(nextUserId)
      ensures r.Registered? ==>
        Snapshot() == old(Snapshot()).(users := old(users) + [User(r.id, name, email, passwordHash, CodePrefix + suffix, false)],
                                       nextUserId := old(nextUserId) + 1)
    {
      if UserByEmail(email).Some? {
        return EmailTaken;
      }
      var code := CodePrefix + suffix;
      if exists i :: 0 <= i < |users| && users[i].accountCode == code {
        return CodeTaken;
      }
      var u := User(nextUserId, name, email, passwordHash, code, false);
      AppendUser(u);
      r := Registered(u.id);
    }

    /** The INSERT of a new user under the next user id; email and account
        code are unique columns. */
    method AppendUser(u: User)
      requires Valid() && u.id == nextUserId
      requires forall i :: 0 <= i < |users| ==> users[i].email != u.email && users[i].accountCode != u.accountCode
      modifies this
      ensures Valid()
      ensures Snapshot() == old(Snapshot()).(users := old(users) + [u], nextUserId := old(nextUserId) + 1)
    {
      PairwiseAppend(users, u, UsersApart);
      OwnersKept(tokens, users, users + [u]);
      users := users + [u];
      nextUserId := nextUserId + 1;
    }

    /** `mark_video_complete`: adds the row (user, session, video) unless it
        is there already. Neither the session nor the video number is
        checked. */
    method MarkVideoComplete(user: int, sid: int, index: int) returns (added: bool)
      requires Valid()
      modifies this
      ensures Valid()
      ensures added <==> Completion(user, sid, index) !in old(completions)
      ensures Completion(user, sid, index) in completions
      ensures Snapshot() == old(Snapshot()).(completions :=
        if added then old(completions) + [Completion(user, sid, index)] else old(completions))
    {
      var c := Completion(user, sid, index);
      added := c !in completions;
      if added {
        PairwiseAppend(completions, c, CompletionsApart);
        completions := completions + [c];
      }
    }

    /** `admin_grant_access`: adds the grant unless it is there already. The
        user and the course are not looked up. */
    method GrantAccess(user: int, course: int) returns (granted: bool)
      requires Valid()
      modifies this
      ensures Valid()
      ensures granted <==> Access(user, course) !in old(access)
      ensures Access(user, course) in access
      ensures Snapshot() == old(Snapshot()).(access :=
        if granted then old(access) + [Access(user, course)] else old(access))
    {
      var g := Access(user, course);
      granted := g !in access;
      if granted {
        PairwiseAppend(access, g, AccessApart);
        access := access + [g];
      }
    }

    /** `admin_remove_access`: deletes the grant if there is one, and nothing
        else. */
    method RemoveAccess(user: int, course: int) returns (removed: bool)
      requires Valid()
      modifies this
      ensures Valid()
      ensures removed <==> Access(user, course) in old(access)
      ensures Access(user, course) !in access
      ensures forall g :: g != Access(user, course) ==> (g in access <==> g in old(access))
      ensures removed ==> exists k :: 0 <= k < |old(access)| && old(access)[k] == Access(user, course)
                                      && access == old(access)[..k] + old(access)[k + 1..]
      ensures Snapshot() == old(Snapshot()).(access := access)
      ensures !removed ==> access == old(access)
    {
      var g := Access(user, course);
      var found := FirstIndex(access, IsGrant(g));
      removed := found.Some?;
      if removed {
        var k := found.value;
        GrantRemoved(access, k);
        RemoveGrantAt(k);
      }
    }

    /** The DELETE of the grant row at `k`. */
    method RemoveGrantAt(k: nat)
      requires Valid() && k < |access|
      modifies this
      ensures Valid()
      ensures Snapshot() == old(Snapshot()).(access := old(access)[..k] + old(access)[k + 1..])
    {
      PairwiseRemove(access, k, AccessApart);
      access := access[..k] + access[k + 1..];
    }

    /** `submit_quiz`: the score over the session's quizzes, then the user's
        attempt for the session is updated in place, or added when there is
        none. A non-integer answer raises and nothing is written. */
    method SubmitQuiz(user: int, sid: int, answers: map<int, string>, now: int)
      returns (r: SubmitOutcome)
      requires Valid()
      modifies this
      ensures Valid()
      ensures r.NoSession? <==> old(SessionAt(sid)).None?
      ensures r.AnswerRaised? <==> old(SessionAt(sid)).Some? && Score(QuizzesOf(old(quizzes), sid), answers).None?
      ensures r.Scored? ==> Score(QuizzesOf(quizzes, sid), answers) == Some(r.score)
                            && r.total == |QuizzesOf(quizzes, sid)|
      ensures !r.Scored? ==> Snapshot() == old(Snapshot())
      ensures r.Scored? ==> Snapshot() == old(Snapshot()).(attempts := attempts)
      ensures r.Scored? ==>
        match old(FirstIndex(attempts, AttemptFor(user, sid)))
        case None => attempts == old(attempts) + [Attempt(user, sid, r.score, r.total, now)]
        case Some(k) => attempts == old(attempts)[k := Attempt(user, sid, r.score, r.total, now)]
    {
      if SessionAt(sid).None? {
        return NoSession;
      }
      var qs := QuizzesOf(quizzes, sid);
      var score := Score(qs, answers);
      if score.None? {
        return AnswerRaised;
      }
      var row := Attempt(user, sid, score.value, |qs|, now);
      PutAttempt(row);
      r := Scored(score.value, |qs|);
    }

    /** The user's attempt row for the session is updated in place, or
        added when there is none. */
    method PutAttempt(row: Attempt)
      requires Valid()
      modifies this
      ensures Valid()
      ensures Snapshot() == old(Snapshot()).(attempts := attempts)
      ensures match old(FirstIndex(attempts, AttemptFor(row.userId, row.sessionId)))
        case None => attempts == old(attempts) + [row]
        case Some(k) => attempts == old(attempts)[k := row]
    {
      var found := FirstIndex(attempts, AttemptFor(row.userId, row.sessionId));
      if found.None? {
        PairwiseAppend(attempts, row, AttemptsApart);
        attempts := attempts + [row];
      } else {
        var k := found.value;
        assert forall i :: 0 <= i < |attempts| && i != k ==> AttemptsApart(attempts[i], row) by {
          forall i | 0 <= i < |attempts| && i != k ensures AttemptsApart(attempts[i], row) {
            if i < k {
              assert AttemptsApart(attempts[i], attempts[k]);
            } else {
              assert AttemptsApart(attempts[k], attempts[i]);
            }
          }
        }
        PairwiseReplace(attempts, k, row, AttemptsApart);
        attempts := attempts[k := row];
      }
    }

    /** A user has at most one attempt per session: any other row is for
        another user or another session. */
    lemma OneAttemptEach(i: nat)
      requires Valid() && i < |attempts|
      ensures forall j :: 0 <= j < |attempts| && j != i ==>
        attempts[j].userId != attempts[i].userId || attempts[j].sessionId != attempts[i].sessionId
    {
      forall j | 0 <= j < |attempts| && j != i
        ensures attempts[j].userId != attempts[i].userId || attempts[j].sessionId != attempts[i].sessionId
      {
        if j < i {
          assert AttemptsApart(attempts[j], attempts[i]);
        } else {
          assert AttemptsApart(attempts[i], attempts[j]);
        }
      }
    }

    /** `forgot_password` (POST): for a known email, a new token row that
        expires one hour from now. An unknown email changes nothing (the page
        says the same either way); a token string already in the table makes
        the unique constraint fail. */
    method IssueResetToken(email: string, token: string, now: int) returns (r: IssueOutcome)
      requires Valid()
      modifies this
      ensures Valid()
      ensures r.NoAccount? <==> old(UserByEmail(email)).None?
      ensures r.TokenTaken? <==>
        (old(UserByEmail(email)).Some? && exists i :: 0 <= i < |old(tokens)| && old(tokens)[i].token == token)
      ensures !r.Issued? ==> Snapshot() == old(Snapshot())
      ensures r.Issued? ==> r.userId == old(users)[old(UserByEmail(email)).value].id
      ensures r.Issued? ==>
        Snapshot() == old(Snapshot()).(tokens := old(tokens) + [ResetToken(r.userId, token, now + ResetLifetime)])
      ensures r.Issued? ==> forall t :: t < now + ResetLifetime ==> TokenValid(token, t)
      ensures r.Issued? ==> !TokenValid(token, now + ResetLifetime)
    {
      var found := UserByEmail(email);
      if found.None? {
        return NoAccount;
      }
      if exists i :: 0 <= i < |tokens| && tokens[i].token == token {
        return TokenTaken;
      }
      var u := users[found.value];
      var row := ResetToken(u.id, token, now + ResetLifetime);
      assert HasUserId(users, u.id);
      AppendToken(row);
      r := Issued(u.id);
      assert tokens[|tokens| - 1] == row;
    }

    /** The INSERT of a token row for an existing user; the token string is
        a unique column. */
    method AppendToken(row: ResetToken)
      requires Valid() && HasUserId(users, row.userId)
      requires forall i :: 0 <= i < |tokens| ==> tokens[i].token != row.token
      modifies this
      ensures Valid()
      ensures Snapshot() == old(Snapshot()).(tokens := old(tokens) + [row])
    {
      PairwiseAppend(tokens, row, TokensApart);
      tokens := tokens + [row];
    }

    /** `reset_password` (POST): the link must be valid at `now`; the new
        password must be non-empty and equal its confirmation; then the
        owner's hash is replaced and exactly that token row is deleted. */
    method ResetPassword(token: string, password: string, confirm: string, passwordHash: string, now: int)
      returns (r: ResetOutcome)
      requires Valid()
      modifies this
      ensures Valid()
      ensures r.InvalidLink? <==> !old(TokenValid(token, now))
      ensures r.Mismatch? <==> old(TokenValid(token, now)) && (password == [] || password != confirm)
      ensures !r.PasswordReset? ==> Snapshot() == old(Snapshot())
      ensures r.PasswordReset? ==>
        exists k :: 0 <= k < |old(tokens)| && old(tokens)[k].token == token && old(tokens)[k].expiresAt > now
                    && old(tokens)[k].userId == r.userId && tokens == old(tokens)[..k] + old(tokens)[k + 1..]
      ensures r.PasswordReset? ==> forall i :: 0 <= i < |tokens| ==> tokens[i].token != token
      ensures r.PasswordReset? ==> |users| == |old(users)|
      ensures r.PasswordReset? ==> forall i :: 0 <= i < |users| ==>
        users[i] == if old(users)[i].id == r.userId then old(users)[i].(passwordHash := passwordHash) else old(users)[i]
      ensures r.PasswordReset? ==> Snapshot() == old(Snapshot()).(users := users, tokens := tokens)
    {
      var live := LiveToken(token, now);
      if live.None? {
        return InvalidLink;
      }
      if password == [] || password != confirm {
        return Mismatch;
      }
      var t := live.value;
      r := PasswordReset(tokens[t].userId);
      ConsumeToken(t, passwordHash);
    }

    /** The owner of token row `t` gets the new hash, then the row is
        deleted. */
    method ConsumeToken(t: nat, passwordHash: string)
      requires Valid() && t < |tokens|
      modifies this
      ensures Valid()
      ensures tokens == old(tokens)[..t] + old(tokens)[t + 1..]
      ensures forall i :: 0 <= i < |tokens| ==> tokens[i].token != old(tokens)[t].token
      ensures |users| == |old(users)|
      ensures forall i :: 0 <= i < |users| ==>
        users[i] == if old(users)[i].id == old(tokens)[t].userId
                    then old(users)[i].(passwordHash := passwordHash) else old(users)[i]
      ensures Snapshot() == old(Snapshot()).(users := users, tokens := tokens)
    {
      var owner := tokens[t].userId;
      assert HasUserId(users, owner);
      var k := FirstIndex(users, UserWithId(owner)).value;
      ghost var before := users;
      RehashKeeps(users, k, passwordHash, nextUserId);
      users := users[k := users[k].(passwordHash := passwordHash)];
      TokenDeleteKeeps(tokens, t, before, users);
      tokens := tokens[..t] + tokens[t + 1..];
    }

    /** `admin_add_course` (POST): a thumbnail file is required and must pass
        the upload filter; it is saved and the course added with it. The
        duration and student count fall back to 0. */
    method AddCourse(title: string, description: string, status: string,
                     duration: Option<string>, students: Option<string>, thumb: Option<Upload>)
      returns (r: CourseOutcome)
      requires Valid()
      modifies this
      ensures Valid()
      ensures r.ThumbnailRequired? <==> !Supplied(thumb)
      ensures r.InvalidType? <==> Supplied(thumb) && !AllowedFile(thumb.value.filename)
      ensures !r.CourseSaved? ==> Snapshot() == old(Snapshot())
      ensures r.CourseSaved? ==> r.id == old(nextCourseId) && Accepted(thumb)
      ensures r.CourseSaved? ==>
        Snapshot() == old(Snapshot()).(
          courses := old(courses) + [Course(r.id, title, description, Some(StoredPath(thumb.value)), status,
                                            FormInt(duration), FormInt(students))],
          media := old(media) + {StoredPath(thumb.value)},
          nextCourseId := old(nextCourseId) + 1)
    {
      var weeks := FormInt(duration);
      var count := FormInt(students);
      if !Supplied(thumb) {
        return ThumbnailRequired;
      }
      if !AllowedFile(thumb.value.filename) {
        return InvalidType;
      }
      var path := StoredPath(thumb.value);
      SetMedia(media + {path});
      var c := Course(nextCourseId, title, description, Some(path), status, weeks, count);
      AppendCourse(c);
      r := CourseSaved(c.id);
    }

    /** The INSERT of a new course row under the next course id. */
    method AppendCourse(row: Course)
      requires Valid() && row.id == nextCourseId
      modifies this
      ensures Valid()
      ensures Snapshot() == old(Snapshot()).(courses := old(courses) + [row], nextCourseId := old(nextCourseId) + 1)
    {
      PairwiseAppend(courses, row, CourseIdBefore);
      courses := courses + [row];
      nextCourseId := nextCourseId + 1;
    }

    /** `admin_edit_course` (POST): the text fields are overwritten; an
        accepted thumbnail replaces the old one, whose file is removed when it
        lies under 'uploads/'. */
    method EditCourse(id: int, title: string, description: string, status: string,
                      duration: Option<string>, students: Option<string>, thumb: Option<Upload>)
      returns (r: CourseOutcome)
      requires Valid()
      modifies this
      ensures Valid()
      ensures r.NoCourse? <==> old(CourseAt(id)).None?
      ensures r.NoCourse? || r == CourseSaved(id)
      ensures r.NoCourse? ==> Snapshot() == old(Snapshot())
      ensures r.CourseSaved? ==>
        var k := old(CourseAt(id)).value;
        var c := old(courses)[k];
        Snapshot() == old(Snapshot()).(
          courses := old(courses)[k := Course(id, title, description, SlotAfter(c.thumbnail, ThumbChoice(thumb)),
                                              status, FormInt(duration), FormInt(students))],
          media := MediaAfter(old(media), c.thumbnail, ThumbChoice(thumb)))
    {
      var found := CourseAt(id);
      if found.None? {
        return NoCourse;
      }
      var k := found.value;
      var thumbnail, m := SaveThumbnail(media, courses[k].thumbnail, thumb);
      SetMedia(m);
      ReplaceCourse(k, Course(id, title, description, thumbnail, status, FormInt(duration), FormInt(students)));
      r := CourseSaved(id);
    }

    /** `admin_delete_course`: removes the course thumbnail and every video of
        its sessions that lies under 'uploads/' (a missing file is skipped),
        then the course with its sessions, their quizzes, completions and
        attempts, and its grants. Session thumbnails stay in the store. */
    method DeleteCourse(id: int) returns (found: bool)
      requires Valid()
      modifies this
      ensures Valid()
      ensures found <==> old(CourseAt(id)).Some?
      ensures !found ==> Snapshot() == old(Snapshot())
      ensures found ==>
        var k := old(CourseAt(id)).value;
        var own := SessionsOf(old(sessions), id);
        var gone := IdsOf(own);
        Snapshot() == old(Snapshot()).(
          courses := old(courses)[..k] + old(courses)[k + 1..],
          sessions := Keep(old(sessions), OutsideCourse(id)),
          quizzes := Keep(old(quizzes), QuizOutside(gone)),
          completions := Keep(old(completions), CompletionOutside(gone)),
          attempts := Keep(old(attempts), AttemptOutside(gone)),
          access := Keep(old(access), AccessOutside(id)),
          media := old(media) - ManagedKeys([old(courses)[k].thumbnail] + VideoPaths(own)))
    {
      var at := CourseAt(id);
      found := at.Some?;
      if !found {
        return;
      }
      var k := at.value;
      var own := SessionsOf(sessions, id);
      var m := ReleaseCourseFiles(media, courses[k].thumbnail, own);
      SetMedia(m);
      DropCourseRows(k, id);
      DropSessionRows(IdsOf(own));
    }

    /** The course row at `k`, the sessions of course `id` and its grants. */
    method DropCourseRows(k: nat, id: int)
      requires Valid() && k < |courses|
      modifies this
      ensures Valid()
      ensures Snapshot() == old(Snapshot()).(
        courses := old(courses)[..k] + old(courses)[k + 1..],
        sessions := Keep(old(sessions), OutsideCourse(id)),
        access := Keep(old(access), AccessOutside(id)))
    {
      RemoveCourseAt(k);
      DropCourseSessions(id);
    }

    /** The DELETE of the course row at `k`. */
    method RemoveCourseAt(k: nat)
      requires Valid() && k < |courses|
      modifies this
      ensures Valid()
      ensures Snapshot() == old(Snapshot()).(courses := old(courses)[..k] + old(courses)[k + 1..])
    {
      PairwiseRemove(courses, k, CourseIdBefore);
      RemovedAreKept(courses, k);
      courses := courses[..k] + courses[k + 1..];
    }

    /** The sessions of course `id` and its grants. */
    method DropCourseSessions(id: int)
      requires Valid()
      modifies this
      ensures Valid()
      ensures Snapshot() == old(Snapshot()).(
        sessions := Keep(old(sessions), OutsideCourse(id)),
        access := Keep(old(access), AccessOutside(id)))
    {
      KeepPairwise(sessions, OutsideCourse(id), SessionIdBefore);
      KeepPairwise(access, AccessOutside(id), AccessApart);
      sessions := Keep(sessions, OutsideCourse(id));
      access := Keep(access, AccessOutside(id));
    }

    /** The cascade from deleted sessions: their quizzes, completions and
        attempts go with them. */
    method DropSessionRows(gone: set<int>)
      requires Valid()
      modifies this
      ensures Valid()
      ensures Snapshot() == old(Snapshot()).(
        quizzes := Keep(old(quizzes), QuizOutside(gone)),
        completions := Keep(old(completions), CompletionOutside(gone)),
        attempts := Keep(old(attempts), AttemptOutside(gone)))
    {
      DropQuizzes(gone);
      DropProgressRows(gone);
    }

    method DropQuizzes(gone: set<int>)
      requires Valid()
      modifies this
      ensures Valid()
      ensures Snapshot() == old(Snapshot()).(quizzes := Keep(old(quizzes), QuizOutside(gone)))
    {
      KeepPairwise(quizzes, QuizOutside(gone), QuizIdBefore);
      quizzes := Keep(quizzes, QuizOutside(gone));
    }

    /** Completions and attempts of the deleted sessions. */
    method DropProgressRows(gone: set<int>)
      requires Valid()
      modifies this
      ensures Valid()
      ensures Snapshot() == old(Snapshot()).(
        completions := Keep(old(completions), CompletionOutside(gone)),
        attempts := Keep(old(attempts), AttemptOutside(gone)))
    {
      KeepPairwise(completions, CompletionOutside(gone), CompletionsApart);
      KeepPairwise(attempts, AttemptOutside(gone), AttemptsApart);
      completions := Keep(completions, CompletionOutside(gone));
      attempts := Keep(attempts, AttemptOutside(gone));
    }

    /** An UPDATE of the course row at `k` that keeps its id. */
    method ReplaceCourse(k: nat, row: Course)
      requires Valid() && k < |courses| && row.id == courses[k].id
      modifies this
      ensures Valid()
      ensures Snapshot() == old(Snapshot()).(courses := old(courses)[k := row])
    {
      PairwiseReplace(courses, k, row, CourseIdBefore);
      courses := courses[k := row];
    }

    /** An UPDATE of the session row at `k` that keeps its id. */
    method ReplaceSession(k: nat, row: Session)
      requires Valid() && k < |sessions| && row.id == sessions[k].id
      modifies this
      ensures Valid()
      ensures Snapshot() == old(Snapshot()).(sessions := old(sessions)[k := row])
    {
      PairwiseReplace(sessions, k, row, SessionIdBefore);
      sessions := sessions[k := row];
    }

    /** `admin_add_session` (POST): the thumbnail and the slot files are
        saved first; then course, title and video 1 are required, and the
        course id must be an integer. The course itself is not looked up. */
    method AddSession(courseField: string, title: string, isFreeField: string,
                      thumb: Option<Upload>, forms: Forms)
      returns (r: SessionOutcome)
      requires Valid()
      modifies this
      ensures Valid()
      ensures media == MediaAfterEdits(MediaAfter(old(media), None, ThumbChoice(thumb)), NoSlots, AddChoices(forms))
      ensures r.MissingFields? <==> courseField == [] || title == [] || AddChoice(forms[0]) == Unchanged
      ensures r.BadCourseId? <==> !r.MissingFields? && ParseInt(courseField).None?
      ensures r.MissingFields? || r.BadCourseId? || r.SessionSaved?
      ensures Snapshot() == old(Snapshot()).(sessions := sessions, media := media, nextSessionId := nextSessionId)
      ensures !r.SessionSaved? ==> sessions == old(sessions) && nextSessionId == old(nextSessionId)
      ensures r.SessionSaved? ==> r.id == old(nextSessionId) && nextSessionId == r.id + 1
      ensures r.SessionSaved? ==>
        sessions == old(sessions) + [Session(r.id, ParseInt(courseField).value, title,
                                             SlotAfter(None, ThumbChoice(thumb)), isFreeField == "1",
                                             SlotsAfter(NoSlots, AddChoices(forms)))]
    {
      var thumbPath, m := SaveThumbnail(media, None, thumb);
      var paths, m' := FillSlots(m, forms);
      SetMedia(m');
      AddedSlotShown(forms[0]);
      if courseField == [] || title == [] || paths[0] == None || paths[0] == Some([]) {
        return MissingFields;
      }
      var courseId := ParseInt(courseField);
      if courseId.None? {
        return BadCourseId;
      }
      var row := Session(nextSessionId, courseId.value, title, thumbPath, isFreeField == "1", paths);
      AppendSession(row);
      r := SessionSaved(row.id);
    }

    /** The files a request saved or removed, recorded before its rows. */
    method SetMedia(m: set<string>)
      requires Valid()
      modifies this
      ensures Valid()
      ensures Snapshot() == old(Snapshot()).(media := m)
    {
      media := m;
    }

    /** The INSERT of a new session row under the next session id. */
    method AppendSession(row: Session)
      requires Valid() && row.id == nextSessionId
      modifies this
      ensures Valid()
      ensures Snapshot() == old(Snapshot()).(sessions := old(sessions) + [row], nextSessionId := old(nextSessionId) + 1)
    {
      PairwiseAppend(sessions, row, SessionIdBefore);
      sessions := sessions + [row];
      nextSessionId := nextSessionId + 1;
    }

    /** `admin_edit_session` (POST): title and free flag are overwritten; the
        thumbnail follows the thumbnail rule and each video slot the slot
        rule, each replacement first releasing the old file. */
    method EditSession(id: int, title: string, isFreeField: string, thumb: Option<Upload>, forms: Forms)
      returns (r: SessionOutcome)
      requires Valid()
      modifies this
      ensures Valid()
      ensures r.NoSessionRow? <==> old(SessionAt(id)).None?
      ensures r.NoSessionRow? || r == SessionSaved(id)
      ensures r.NoSessionRow? ==> Snapshot() == old(Snapshot())
      ensures r.SessionSaved? ==>
        var k := old(SessionAt(id)).value;
        var s := old(sessions)[k];
        Snapshot() == old(Snapshot()).(
          sessions := old(sessions)[k := Session(id, s.courseId, title, SlotAfter(s.thumbnail, ThumbChoice(thumb)),
                                                 isFreeField == "1", SlotsAfter(s.videos, EditChoices(forms)))],
          media := MediaAfterEdits(MediaAfter(old(media), s.thumbnail, ThumbChoice(thumb)), s.videos, EditChoices(forms)))
    {
      var found := SessionAt(id);
      if found.None? {
        return NoSessionRow;
      }
      var k := found.value;
      var s := sessions[k];
      var thumbnail, m := SaveThumbnail(media, s.thumbnail, thumb);
      var videos, m' := EditSlots(m, s.videos, forms);
      SetMedia(m');
      ReplaceSession(k, Session(id, s.courseId, title, thumbnail, isFreeField == "1", videos));
      r := SessionSaved(id);
    }

    /** `admin_delete_session`: removes the session's videos and thumbnail
        that lie under 'uploads/' (a missing file is skipped), then the
        session with its quizzes, completions and attempts. */
    method DeleteSession(id: int) returns (found: bool)
      requires Valid()
      modifies this
      ensures Valid()
      ensures found <==> old(SessionAt(id)).Some?
      ensures !found ==> Snapshot() == old(Snapshot())
      ensures found ==>
        var k := old(SessionAt(id)).value;
        var s := old(sessions)[k];
        Snapshot() == old(Snapshot()).(
          sessions := old(sessions)[..k] + old(sessions)[k + 1..],
          quizzes := Keep(old(quizzes), QuizOutside({id})),
          completions := Keep(old(completions), CompletionOutside({id})),
          attempts := Keep(old(attempts), AttemptOutside({id})),
          media := old(media) - ManagedKeys(s.videos + [s.thumbnail]))
    {
      var at := SessionAt(id);
      found := at.Some?;
      if !found {
        return;
      }
      var k := at.value;
      var m := ReleaseSessionFiles(media, sessions[k]);
      SetMedia(m);
      RemoveSessionAt(k);
      DropSessionRows({id});
    }

    /** The DELETE of the session row at `k`. */
    method RemoveSessionAt(k: nat)
      requires Valid() && k < |sessions|
      modifies this
      ensures Valid()
      ensures Snapshot() == old(Snapshot()).(sessions := old(sessions)[..k] + old(sessions)[k + 1..])
    {
      PairwiseRemove(sessions, k, SessionIdBefore);
      RemovedAreKept(sessions, k);
      sessions := sessions[..k] + sessions[k + 1..];
    }

    /** `admin_add_quiz` (POST): question, the four options and the correct
        option are required; `int()` of the correct option may raise. */
    method AddQuiz(sessionId: int, question: string, options: seq<string>, correct: string)
      returns (r: QuizOutcome)
      requires Valid() && |options| == 4
      modifies this
      ensures Valid()
      ensures r.QuizFieldsMissing? <==> question == [] || [] in options || correct == []
      ensures r.CorrectRaised? <==> !r.QuizFieldsMissing? && ParseInt(correct).None?
      ensures !r.QuizAdded? ==> Snapshot() == old(Snapshot())
      ensures r.QuizAdded? ==> r.id == old(nextQuizId)
      ensures r.QuizAdded? ==>
        Snapshot() == old(Snapshot()).(
          quizzes := old(quizzes) + [Quiz(r.id, sessionId, question, options, ParseInt(correct).value)],
          nextQuizId := old(nextQuizId) + 1)
    {
      if question == [] || [] in options || correct == [] {
        return QuizFieldsMissing;
      }
      var answer := ParseInt(correct);
      if answer.None? {
        return CorrectRaised;
      }
      var q := Quiz(nextQuizId, sessionId, question, options, answer.value);
      AppendQuiz(q);
      r := QuizAdded(q.id);
    }

    /** The INSERT of a new quiz row under the next quiz id. */
    method AppendQuiz(row: Quiz)
      requires Valid() && row.id == nextQuizId
      modifies this
      ensures Valid()
      ensures Snapshot() == old(Snapshot()).(quizzes := old(quizzes) + [row], nextQuizId := old(nextQuizId) + 1)
    {
      PairwiseAppend(quizzes, row, QuizIdBefore);
      quizzes := quizzes + [row];
      nextQuizId := nextQuizId + 1;
    }

    /** `session_detail`: a missing session, a paid session without a grant,
        or a video number outside 1 .. the present videos each redirect;
        otherwise the page plays the video of that number. */
    function SessionView(user: int, sid: int, index: int): (v: SessionPage)
      reads this
      ensures v.SessionNotFound? <==> SessionAt(sid).None?
      ensures SessionAt(sid).Some? ==>
        var s := sessions[SessionAt(sid).value];
        && (v.Locked? <==> !s.isFree && Access(user, s.courseId) !in access)
        && (v.BadIndex? <==> (s.isFree || Access(user, s.courseId) in access) && !(1 <= index <= PresentCount(s.videos)))
      ensures v.Page? ==>
        var s := sessions[SessionAt(sid).value];
        && v.total == PresentCount(s.videos)
        && (exists j :: 0 <= j < 4 && s.videos[j] == Some(v.url) && Present(s.videos[j])
                        && PresentCount(s.videos[..j]) == index - 1)
        && (v.completed <==> Completion(user, sid, index) in completions)
        && v.quizzes == QuizzesOf(quizzes, sid)
    {
      match SessionAt(sid)
      case None => SessionNotFound
      case Some(k) =>
        var s := sessions[k];
        match SelectVideo(s, Access(user, s.courseId) in access, index)
        case AccessDenied => Locked
        case InvalidIndex => BadIndex
        case Playing(url, total) => Page(url, total, Completion(user, sid, index) in completions, QuizzesOf(quizzes, sid))
    }

    /** `course_detail`: the course, its sessions, whether the user holds a
        grant, and (with one) the progress and per-session completion flags. */
    method CourseDetail(user: int, courseId: int) returns (v: CourseView)
      ensures v.CourseNotFound? <==> CourseAt(courseId).None?
      ensures v.CourseShown? ==>
        && v.course == courses[CourseAt(courseId).value]
        && v.sessions == SessionsOf(sessions, courseId)
        && (v.hasAccess <==> Access(user, courseId) in access)
      ensures v.CourseShown? && !v.hasAccess ==> v.progress == Zero && v.fully == []
      ensures v.CourseShown? && v.hasAccess ==>
        && v.progress == Percent(TotalCompleted(v.sessions, completions, user), TotalPresent(v.sessions))
        && |v.fully| == |v.sessions|
        && forall k :: 0 <= k < |v.sessions| ==> v.fully[k] == FullyCompleted(v.sessions[k], completions, user)
    {
      var found := CourseAt(courseId);
      if found.None? {
        return CourseNotFound;
      }
      var hasAccess := Access(user, courseId) in access;
      var own := SessionsOf(sessions, courseId);
      var progress, fully := CourseProgress(own, completions, user, hasAccess);
      v := CourseShown(courses[found.value], own, hasAccess, progress, fully);
    }

    /** `courses`: (enrolled, other), each course in exactly one of them. */
    function CourseLists(user: int): (r: (seq<Course>, seq<Course>))
      reads this
      ensures forall c :: c in r.0 <==> c in courses && Access(user, c.id) in access
      ensures forall c :: c in r.1 <==> c in courses && Access(user, c.id) !in access
      ensures |r.0| + |r.1| == |courses|
    {
      Partition(courses, AccessibleIds(access, user))
    }

    /** Both lists come in increasing course id, as `order_by(Course.id)`
        gives them. */
    lemma CourseListsOrdered(user: int)
      requires Valid()
      ensures Pairwise(CourseLists(user).0, CourseIdBefore) && Pairwise(CourseLists(user).1, CourseIdBefore)
    {
      PartitionKeepsOrder(courses, AccessibleIds(access, user));
    }
  }
}
