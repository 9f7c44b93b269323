# Skillify learning platform — a Dafny model

This project models the core of the Skillify learning platform
(`AI-website/app.py`, a Flask application over SQLite). It covers the
course catalogue, the sessions with their four video slots, per-video
completion tracking and course progress, and quiz grading with the
one-attempt-per-session rule. It also covers admin-granted course access,
password-reset tokens, and the admin content operations. Those are adding,
editing and deleting courses, sessions and quizzes, together with the files
they save to and remove from the upload store.

## Structure

- `basics.dfy` (Basics): optional values, and order-preserving filtering
  and lookup over table rows (`Keep` is a list comprehension or a DELETE,
  `FirstIndex` is `.first()`). It also has the pairwise row invariants
  (unique keys, increasing ids) and the lemmas that keep them across
  INSERT, UPDATE and DELETE.
- `text.dfy` (Text): the Python string behaviour the routes rely on:
  - `str.strip()`, `str.startswith`, `str.lower()` on A–Z, and the text
    after the last dot;
  - `int()` on a form value, where `None` stands for the ValueError;
  - `str()` of an integer.
- `uploads.dfy` (Uploads): `ALLOWED_EXTENSIONS`, `allowed_file`, the
  `uploads/` path convention, and which paths the platform may delete.
- `entities.dfy` (Entities): the rows of the eight tables.
- `videos.dfy` (Videos): which video slots are shown and how a video
  number picks one.
- `progress.dfy` (Progress): the progress computation of `course_detail`.
- `grading.dfy` (Grading): the quiz score of `submit_quiz`.
- `catalog.dfy` (Catalog): the enrolled/other split of the `courses` page.
- `content.dfy` (Content): the rules by which admin forms fill and replace
  thumbnails and video slots, and what each rule does to the upload store.
- `platform.dfy` (Platform): the whole database as a class `Store`. Its
  fields are the tables (sequences in insertion order), the per-table id
  counters and the set of stored upload keys. Each route that changes data
  is a method whose postcondition gives the complete new state (the
  `Snapshot()` of all fields) in terms of the old one. Each method also
  preserves `Valid()`:
  - the unique columns stay unique;
  - ids stay increasing and below their counters;
  - there is at most one grant per (user, course) and one completion per
    (user, session, video);
  - there is at most one attempt per (user, session);
  - every reset token belongs to an existing user.

  The pages that only read data are functions or non-mutating methods over
  the same state.

Inputs that come from outside the program are parameters:
- the current time, in whole seconds;
- the random reset token;
- the six-character account-code suffix from `uuid4`;
- the password hash;
- the name `secure_filename` gives an upload;
- the logged-in user's id.

Three behaviours of the code are kept as written:
- Quiz grading calls `int()` on every non-empty answer, so a non-integer
  answer makes the whole submission fail rather than count as wrong.
- Progress counts every completion row of a session, whatever its video
  number, so the percentage can pass 100.
- `admin_add_session` saves the uploaded files before it checks the
  required fields, so a rejected form still leaves its files stored.

## Model

| member | source | states |
|---|---|---|
| `Text.ParseInt` | AI-website/app.py:270 | `int()` of a form value succeeds only when something remains once the whitespace `int()` skips is removed from both ends |
| `Text.ParseDigitString` | AI-website/app.py:270 | a value that is a digit string of at most 4300 digits once `int()` skips its whitespace parses to the value of those digits |
| `Text.ParseTooManyDigits` | AI-website/app.py:270 | a digit string of more than 4300 digits, underscores not counted, makes `int()` raise whatever its value |
| `Text.ParseRejectsNonDigit` | AI-website/app.py:270 | a value with no skipped whitespace at either end that starts with neither a sign nor a digit makes `int()` raise |
| `Text.IntSkipsPadding` | AI-website/app.py:270 | `int(' ' + digits + '\n')` is the value of the digits, for at most 4300 digits |
| `Text.StripSeparated` | AI-website/app.py:219 | `str.strip()` removes a leading U+001C before digits |
| `Text.IntRejectsSeparator` | AI-website/app.py:270 | `int()` raises on U+001C followed by digits, which `str.strip()` would have removed |
| `Text.ParseShow` | AI-website/app.py:270 | `int(str(n)) == n` for every integer of at most 4300 digits: a rendered option number parses back to itself |
| `Text.ParseShowTooLong` | AI-website/app.py:270 | `int(str(n))` raises when n has more than 4300 digits, whatever its sign |
| `Text.ShowNatLength` | AI-website/app.py:270 | a natural number below 10^k is written with at most k digits |
| `Text.StoredIntegersShown` | AI-website/app.py:70 | every value of a 64-bit INTEGER column, such as a stored correct option, has at most 19 digits and so lies within the limit |
| `Text.StripEmptyIff` | AI-website/app.py:219 | `url.strip()` is empty exactly when the value is all whitespace |
| `Text.StripIdempotent` | AI-website/app.py:219 | stripping twice gives the same as stripping once |
| `Text.LastDot` | AI-website/app.py:133 | the position of a '.' with no '.' after it, and none exactly when the name has no dot |
| `Uploads.AllowedFile` | AI-website/app.py:132-133 | an accepted name contains a dot and does not end with one |
| `Uploads.Extension` | AI-website/app.py:133 | `rsplit('.', 1)[1]` exists exactly when the name contains a dot |
| `Uploads.AllowedFileAt` | AI-website/app.py:132-133 | a name is accepted exactly when the lowercased text after its last dot is one of ALLOWED_EXTENSIONS |
| `Uploads.AllowedFileCaseInsensitive` | AI-website/app.py:132-133 | a name and its lowercase form are accepted or rejected together |
| `Uploads.AllowedFileRejects` | AI-website/app.py:132-133 | a name without a dot, an empty extension, and `photo.png.exe` are rejected |
| `Uploads.AllowedFileAccepts` | AI-website/app.py:18 | `A.MP4` and `lesson.v2.webm` are accepted |
| `Uploads.StoredPathManaged` | AI-website/app.py:348 | the path recorded for a saved upload lies under 'uploads/' and is not blank |
| `Videos.ValidVideos` | AI-website/app.py:242 | there are at most as many shown videos as slots |
| `Videos.ShownFromSlots` | AI-website/app.py:242 | every shown video is the value of one of the slots and is not blank after stripping |
| `Videos.PresentCount` | AI-website/app.py:219 | the number of present slots is at most the number of slots |
| `Videos.ValidVideosCount` | AI-website/app.py:241-242 | the video list of `session_detail` is as long as the present-slot count used by `course_detail` |
| `Videos.PresentCountAppend` | AI-website/app.py:219 | the present-slot count adds up over consecutive runs of slots |
| `Videos.ValidVideosAppend` | AI-website/app.py:242 | the video filter keeps slot order across concatenation |
| `Videos.SlotOf` | AI-website/app.py:247 | video number k+1 comes from a present slot with exactly k present slots before it |
| `Videos.PresentSlotShown` | AI-website/app.py:241-247 | every present slot is shown, at the position given by the present slots before it |
| `Videos.SelectVideo` | AI-website/app.py:236-247 | a paid session without a grant is refused before the number is checked; the number must lie in 1..count; the played URL is the value of a present slot at that position |
| `Videos.GapsAreCompacted` | AI-website/app.py:241-247 | slots [A, "", C, " "] give two videos: video 2 is C and video 3 is invalid |
| `Videos.CompactedSlots` | AI-website/app.py:242 | the filter drops empty and blank slots and keeps A then C |
| `Progress.FullyCompleted` | AI-website/app.py:223 | a fully completed session has between one and four of the user's completion rows |
| `Progress.Percent` | AI-website/app.py:225 | the percentage is 100·completed/present as an exact fraction, or 0 when no video is present |
| `Progress.CourseProgress` | AI-website/app.py:209-225 | without a grant the progress is 0 and no flags are computed; with one, the progress is the percentage of the sums over the course's sessions and each session's flag says it is fully completed |
| `Progress.CompletionsGrow` | AI-website/app.py:221 | one more completion row never lowers a session's count, and a row for another user or session leaves it unchanged |
| `Progress.TotalCompletedGrows` | AI-website/app.py:216-222 | one more completion row never lowers the course's completed total |
| `Progress.PercentMonotone` | AI-website/app.py:225 | more completed videos never give a lower percentage |
| `Progress.MarkingNeverLowersProgress` | AI-website/app.py:216-225 | marking a video complete never lowers the course progress |
| `Progress.OtherUsersRowsIgnored` | AI-website/app.py:221 | another user's completion row never changes this user's progress |
| `Progress.AllCompletedSums` | AI-website/app.py:223 | when every session is fully completed the completed total equals the present total, which is positive |
| `Progress.AllCompletedIsHundred` | AI-website/app.py:223-225 | when every session is fully completed the course shows exactly 100 |
| `Progress.ProgressCanPassHundred` | AI-website/app.py:221-225 | one video marked complete under two video numbers shows 200: the percentage is not capped |
| `Grading.MarkOf` | AI-website/app.py:270 | a question is right exactly when `int()` of its answer is the correct option; it raises exactly when the answer is non-empty and `int()` rejects it |
| `Grading.MarksAt` | AI-website/app.py:270 | the mark at each position is the mark of the question at that position against the submitted answers |
| `Grading.MarksAppend` | AI-website/app.py:270 | each question is marked on its own: the marks of two runs of questions are the marks of each run, in order |
| `Grading.Tally` | AI-website/app.py:270 | a score never exceeds the number of questions |
| `Grading.Score` | AI-website/app.py:270 | the score of a submission is at most the number of the session's quizzes |
| `Grading.TallyFailsIff` | AI-website/app.py:270 | the sum fails exactly when some question raised |
| `Grading.TallyExtremes` | AI-website/app.py:270 | a full tally means every question is right; 0 means none is |
| `Grading.TallyAppend` | AI-website/app.py:270 | tallies add up over concatenated mark lists |
| `Grading.ScoreFailsIff` | AI-website/app.py:270 | a submission fails exactly when some quiz got a non-empty answer that `int()` rejects; a missing or empty answer never fails it |
| `Grading.ScoreExtremes` | AI-website/app.py:270 | full marks exactly when every question is right; 0 exactly when none is |
| `Grading.ScoreAppend` | AI-website/app.py:270 | scores add up over a split question bank |
| `Grading.CorrectOptionsScoreAll` | AI-website/app.py:270 | answering each question with `str()` of its correct option, which has at most 4300 digits, scores every question |
| `Grading.NothingAnsweredScoresZero` | AI-website/app.py:270 | an empty submission scores 0 and does not fail |
| `Grading.MarkOfShown` | AI-website/app.py:270 | an answer that renders an integer of at most 4300 digits marks the question right exactly when it is the correct option |
| `Grading.TwoOfThree` | AI-website/app.py:270 | correct options 2, 1, 4 answered 2, 3, 4 score 2 |
| `Catalog.AccessibleIds` | AI-website/app.py:189 | the ids of the user's grants, exactly |
| `Catalog.Partition` | AI-website/app.py:190-191 | a course is enrolled exactly when its id is granted, otherwise other; together the lists hold every course once |
| `Catalog.PartitionKeepsOrder` | AI-website/app.py:188-191 | both lists keep the id order of `order_by(Course.id)` |
| `Catalog.PartitionAppend` | AI-website/app.py:190-191 | each list is filled in table order |
| `Content.AddChoice` | AI-website/app.py:419-425 | a slot of a new session is linked to the stripped non-blank URL only for type 'url', stores a file only for type 'upload' with an accepted file, and stays empty exactly when neither applies |
| `Content.EditChoice` | AI-website/app.py:452-466 | an edited slot stores a file only when an accepted one came; it takes the stripped URL only when no file came and the URL is not blank; it stays as it was exactly when a disallowed file or no file and a blank URL came |
| `Content.ThumbChoice` | AI-website/app.py:364-371 | a thumbnail is never a URL, and it is replaced exactly when an accepted file came |
| `Content.Release` | AI-website/app.py:367-369 | a removal deletes the old path when it lies under 'uploads/', and takes away nothing else |
| `Content.MediaAfter` | AI-website/app.py:452-466 | an uploaded file is in the store afterwards; a replaced slot's old file under 'uploads/' is gone, unless the upload has the same path |
| `Content.ManagedKeys` | AI-website/app.py:396 | a delete removes only keys under 'uploads/' |
| `Content.ManagedKeysIff` | AI-website/app.py:393-398 | a delete removes exactly the listed paths that lie under 'uploads/' |
| `Content.ManagedKeysAppend` | AI-website/app.py:484-491 | removing two runs of paths removes the paths of both |
| `Content.UnlistedKept` | AI-website/app.py:389-398 | a delete keeps every file no listed path names, among them session thumbnails on a course delete, and every file outside 'uploads/' |
| `Content.AddedSlotShown` | AI-website/app.py:419-425 | a filled slot of a new session is always shown: it is non-blank exactly when it was filled |
| `Content.EditNeverBlanks` | AI-website/app.py:452-466 | an edit never blanks a shown slot; it changes a slot exactly when an accepted file, or a non-blank URL without a file, came |
| `Content.DisallowedUploadIgnoresUrl` | AI-website/app.py:455-461 | a supplied file of a disallowed type leaves slot and store unchanged even when a URL came with it |
| `Content.MediaAfterBounds` | AI-website/app.py:452-466 | a slot edit removes at most the slot's old file under 'uploads/' and adds at most the uploaded file |
| `Content.ForeignMediaKept` | AI-website/app.py:452-466 | no run of slot edits removes a file outside 'uploads/' |
| `Content.AddOnlySaves` | AI-website/app.py:417-425 | filling the slots of a new session never removes a file |
| `Content.SharedPathReleased` | AI-website/app.py:452-466 | an upload saved for one slot is removed again when a later slot that held the same path is replaced in the same form |
| `Platform.SessionsOf` | AI-website/app.py:217 | exactly the sessions of the course |
| `Platform.QuizzesOf` | AI-website/app.py:249 | exactly the quizzes of the session |
| `Platform.FormInt` | AI-website/app.py:340 | a non-zero reading is the value `int()` gives the field, and a field `int()` accepts reads as that value |
| `Platform.FormIntValues` | AI-website/app.py:340 | `request.form.get(..., 0, type=int)` gives 0 for an absent or empty field and n for `str(n)` when n has at most 4300 digits |
| `Platform.FormIntTooLong` | AI-website/app.py:340 | a field of more than 4300 digits makes `int()` raise, and the reading falls back to 0 |
| `Platform.RehashKeeps` | AI-website/app.py:324-325 | replacing one user's password hash keeps ids, emails and codes unique and changes only that row |
| `Platform.TokenDeleteKeeps` | AI-website/app.py:326 | deleting a token row keeps the token table valid and leaves no row with that token |
| `Platform.GrantRemoved` | AI-website/app.py:526-528 | deleting a grant row deletes that grant and no other |
| `Platform.ReleaseVideos` | AI-website/app.py:484-488 | the per-slot loop removes exactly the video paths under 'uploads/' |
| `Platform.ReleaseCourseFiles` | AI-website/app.py:389-398 | the course thumbnail and all videos of the course's sessions under 'uploads/' are removed, and nothing else |
| `Platform.ReleaseSessionFiles` | AI-website/app.py:484-491 | the session's videos and thumbnail under 'uploads/' are removed, and nothing else |
| `Platform.SaveThumbnail` | AI-website/app.py:364-371 | only an accepted thumbnail changes the thumbnail, removing the old file first when it lies under 'uploads/' |
| `Platform.FillSlot` | AI-website/app.py:419-425 | one slot of a new session follows the add rule, saving an accepted upload |
| `Platform.FillSlots` | AI-website/app.py:418-425 | the four slots and the store after the loop of `admin_add_session` |
| `Platform.EditSlot` | AI-website/app.py:449-466 | one slot of an edited session follows the edit rule, removing the replaced file |
| `Platform.EditSlots` | AI-website/app.py:448-466 | the four slots and the store after the loop of `admin_edit_session` |
| `Platform.Store.constructor` | AI-website/app.py:139-140 | a fresh database: empty tables, counters at 1 |
| `Platform.Store.CourseAt` | AI-website/app.py:205 | the row with the course id, or none exactly when no row has it |
| `Platform.Store.SessionAt` | AI-website/app.py:232 | the row with the session id, or none exactly when no row has it |
| `Platform.Store.UserByEmail` | AI-website/app.py:162 | the row with the email, or none exactly when no row has it |
| `Platform.Store.LiveToken` | AI-website/app.py:316 | a row with the token that expires after now, or none exactly when there is none |
| `Platform.Store.TokenValid` | AI-website/app.py:316 | the reset link is accepted exactly when the token query finds an unexpired row |
| `Platform.Store.Register` | AI-website/app.py:158-168 | a taken email is refused; a taken account code fails the unique constraint; otherwise exactly one user row is added with the 'AI-YOUTH-' code and no admin flag |
| `Platform.Store.AppendUser` | AI-website/app.py:164-166 | the INSERT of a user under the next id keeps the user table valid |
| `Platform.Store.MarkVideoComplete` | AI-website/app.py:255-262 | the completion row is present afterwards and is added exactly when it was missing; nothing else changes |
| `Platform.Store.GrantAccess` | AI-website/app.py:511-520 | the grant is present afterwards and is added exactly when it was missing; nothing else changes |
| `Platform.Store.RemoveAccess` | AI-website/app.py:522-530 | the grant is absent afterwards, removed exactly when it was there, and every other grant is kept |
| `Platform.Store.RemoveGrantAt` | AI-website/app.py:528 | the DELETE of one grant row |
| `Platform.Store.SubmitQuiz` | AI-website/app.py:264-280 | a missing session or a raising answer changes nothing; otherwise the user's attempt for the session holds the score and the quiz count, replaced in place or added |
| `Platform.Store.PutAttempt` | AI-website/app.py:272-277 | the attempt row is updated in place when one exists for (user, session), otherwise added |
| `Platform.Store.OneAttemptEach` | AI-website/app.py:272-277 | a user has at most one attempt row per session |
| `Platform.Store.IssueResetToken` | AI-website/app.py:298-312 | an unknown email changes nothing; otherwise a token for that user is added that is valid before now+3600 and invalid from then on |
| `Platform.Store.AppendToken` | AI-website/app.py:306-307 | the INSERT of a token for an existing user with a fresh token string |
| `Platform.Store.ResetPassword` | AI-website/app.py:314-329 | an invalid or expired link, or an empty or unconfirmed password, changes nothing; otherwise the owner's hash is replaced and exactly that token row is deleted |
| `Platform.Store.ConsumeToken` | AI-website/app.py:324-326 | the owner of the token row gets the new hash and the row is deleted |
| `Platform.Store.AddCourse` | AI-website/app.py:335-353 | a missing thumbnail or a disallowed type changes nothing; otherwise the file is stored and one course row is added with it |
| `Platform.Store.AppendCourse` | AI-website/app.py:349-350 | the INSERT of a course under the next id |
| `Platform.Store.EditCourse` | AI-website/app.py:355-375 | the text fields are overwritten; the thumbnail and the store follow the thumbnail rule |
| `Platform.Store.DeleteCourse` | AI-website/app.py:383-402 | the course, its sessions, their quizzes, completions and attempts, and its grants are deleted; the course thumbnail and session videos under 'uploads/' are removed |
| `Platform.Store.DropCourseRows` | AI-website/app.py:400 | the course row, its sessions and its grants are deleted |
| `Platform.Store.RemoveCourseAt` | AI-website/app.py:400 | the DELETE of one course row |
| `Platform.Store.DropCourseSessions` | AI-website/app.py:43-44 | the cascade from a course to its sessions and grants |
| `Platform.Store.DropSessionRows` | AI-website/app.py:57-59 | the cascade from sessions to their quizzes, completions and attempts |
| `Platform.Store.DropQuizzes` | AI-website/app.py:57 | the cascade from sessions to their quizzes |
| `Platform.Store.DropProgressRows` | AI-website/app.py:58-59 | the cascade from sessions to their completions and attempts |
| `Platform.Store.ReplaceCourse` | AI-website/app.py:361-373 | an UPDATE of a course row that keeps its id |
| `Platform.Store.ReplaceSession` | AI-website/app.py:443-465 | an UPDATE of a session row that keeps its id |
| `Platform.Store.AddSession` | AI-website/app.py:404-434 | the files are saved first; a missing course, title or video 1 is refused, then a non-integer course id; otherwise one session row is added with the stored paths |
| `Platform.Store.AppendSession` | AI-website/app.py:430-431 | the INSERT of a session under the next id |
| `Platform.Store.EditSession` | AI-website/app.py:436-470 | title and free flag are overwritten; the thumbnail and each slot follow their rules, with the store changed slot by slot |
| `Platform.Store.DeleteSession` | AI-website/app.py:478-495 | the session with its quizzes, completions and attempts is deleted; its videos and thumbnail under 'uploads/' are removed |
| `Platform.Store.RemoveSessionAt` | AI-website/app.py:493 | the DELETE of one session row |
| `Platform.Store.AddQuiz` | AI-website/app.py:497-509 | an empty question, option or correct option is refused, then a non-integer correct option; otherwise one quiz row is added |
| `Platform.Store.AppendQuiz` | AI-website/app.py:506-507 | the INSERT of a quiz under the next id |
| `Platform.Store.SessionView` | AI-website/app.py:229-253 | missing session, locked session or bad number as in `session_detail`; the page plays the video of that number and shows the completion flag and the session's quizzes |
| `Platform.Store.CourseDetail` | AI-website/app.py:202-227 | the course, its sessions, the grant flag, and with a grant the progress and per-session flags |
| `Platform.Store.CourseLists` | AI-website/app.py:185-192 | enrolled courses are exactly those with a grant, the others exactly those without |
| `Platform.Store.CourseListsOrdered` | AI-website/app.py:188-191 | both lists come in increasing course id |

## Left out

- Routes with no state to model: `login` with `check_password_hash`, `logout`, `index`, `profile`, `request_course_access` (a flash message only), `finish_session`, `contact`, `admin_dashboard`.
- `admin_manage_access` (a case-insensitive LIKE search over users, with courses by title), and the read-only listings of `admin_manage_courses` (newest id first), `admin_manage_sessions` (by course title), the GET form of `admin_add_session` (active courses by title) and of `admin_add_quiz` (by course and session title). These are SQL pattern matching and sorting over rows the model already holds.
- The `init-db` command and its default admin user; the constructor gives the empty database that `create_all` leaves.
- Login and admin checks (`login_required`, `admin_required`, `before_request`): the current user is a parameter, and admin routes are methods called on the admin's behalf.
- Templates, flash messages, redirects and HTTP status codes. The outcome datatypes name each redirect or error the routes produce.
- Password hashing, `secrets.token_urlsafe`, `uuid4` and `secure_filename`: their results are parameters. An empty name from `secure_filename` is not treated specially.
- The file system: the upload store is a set of 'uploads/…' keys. Saving the same name twice is one key. Removing a missing file is a no-op, as the routes swallow the OSError. The static folder versus the working directory is not modelled.
- Timestamps: `datetime.now()` and `utcnow()` are whole seconds given as a parameter; time zones are not modelled.
- Float arithmetic: the progress percentage is an exact fraction `Ratio` instead of a float.
- SQLite details:
  - exact autoincrement ids: counters start at 1 and never reuse an id;
  - foreign key enforcement;
  - the string-to-integer coercion of `user_id` and `course_id` in the grant routes and of `session_id` in `admin_add_quiz`; these ids are integers in the model. So the refusal of an empty `session_id` by `admin_add_quiz` is not modelled.
- Absent form fields: `request.form.get` without a default gives None where the model reads the empty string. A field read with `request.form[...]` that is missing raises KeyError and the request fails with status 400 before anything is written. This happens in `register`, `admin_add_course`, `admin_edit_course`, `admin_edit_session`, `admin_add_quiz`, `admin_grant_access` and `admin_remove_access`. The model always receives every field.
- Integer width: SQLite INTEGER columns hold 64-bit values while the model's integers are unbounded. A course id or correct option that `int()` reads but that lies outside that range makes the commit fail in the source, after any files were saved. The same holds for a duration or student count that `type=int` reads. The model adds the row. A value of more than 4300 digits is modelled: `int()` raises, and `type=int` gives 0.
- Text: `str.lower()` outside A–Z, since no other character lowercases into one of the six extensions that matter here.
- Concurrency and transactions: each route runs alone, and every write of a route is committed together.
- `Text.ParseInt`: its own contract only states that success needs something besides skipped whitespace. Its meaning is carried by `Text.ParseShow`, `Text.ParseDigitString`, `Text.ParseRejectsNonDigit`, `Text.IntSkipsPadding` and `Text.IntRejectsSeparator`. Non-ASCII decimal digits, which `int()` also accepts, are not modelled. The 4300-digit limit is CPython's default; a limit changed through `sys.set_int_max_str_digits` or `PYTHONINTMAXSTRDIGITS` is not modelled.
- `Text.ParseDigitString`: covers digit strings of at most 4300 digits; longer ones are refused, as `Text.ParseTooManyDigits` states.
- `Text.IntSkipsPadding`: covers at most 4300 digits; beyond that `int()` raises, as `Text.ParseTooManyDigits` states.
- `Text.ParseShow`: covers integers of at most 4300 digits; beyond that `int(str(n))` raises, as `Text.ParseShowTooLong` states.
- `Grading.MarkOfShown`: covers answers of at most 4300 digits; a longer digit answer makes `int()` raise, so the submission fails (see `Grading.MarkOf`).
- `Platform.FormIntValues`: covers values of at most 4300 digits; a longer field reads as 0, as `Platform.FormIntTooLong` states.
- The rest of the repository: the front-end script `animations.js`, `migrate_db.py`, the two `force_admin_pass.py` scripts and the chat-bot snippet `Code/messages to sent.py`. None touches the core logic.
