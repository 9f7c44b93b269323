/** The rows of the platform's tables (AI-website/app.py, the SQLAlchemy
    models). Ids are the tables' integer primary keys; an absent nullable
    column is None. */
module Entities {
  import opened Basics

  /** The four video columns video1_url .. video4_url, in order. */
  type Slots = s: seq<Option<string>> | |s| == 4 witness [None, None, None, None]

  datatype User = User(id: int, name: string, email: string, passwordHash: string,
                       accountCode: string, isAdmin: bool)

  datatype Course = Course(id: int, title: string, description: string, thumbnail: Option<string>,
                           status: string, durationWeeks: int, studentCount: int)

  datatype Session = Session(id: int, courseId: int, title: string, thumbnail: Option<string>,
                             isFree: bool, videos: Slots)

  /** A quiz question; `options` holds option1 .. option4. */
  datatype Quiz = Quiz(id: int, sessionId: int, question: string, options: seq<string>,
                       correctAnswer: int)

  /** StudentCourseAccess: the user may see every session of the course. */
  datatype Access = Access(userId: int, courseId: int)

  /** VideoCompletion: the user finished video `videoIndex` of the session. */
  datatype Completion = Completion(userId: int, sessionId: int, videoIndex: int)

  /** StudentQuizAttempt: the latest quiz result of a user for a session. */
  datatype Attempt = Attempt(userId: int, sessionId: int, score: nat, total: nat, attemptedOn: int)

  /** PasswordResetToken; `expiresAt` is a clock reading in seconds. */
  datatype ResetToken = ResetToken(userId: int, token: string, expiresAt: int)
}
