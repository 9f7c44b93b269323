/** The course list of the `courses` page (AI-website/app.py): every course,
    in id order, goes either to the user's enrolled courses (those a grant
    names) or to the other courses. */
module Catalog {
  import opened Basics
  import opened Entities

  /** `order_by(Course.id)`: ids increase along the course table. */
  predicate CourseIdBefore(a: Course, b: Course)
  {
    a.id < b.id
  }

  /** The ids of the courses a user holds a grant for. */
  function AccessibleIds(access: seq<Access>, user: int): (ids: set<int>)
    ensures forall c :: c in ids <==> Access(user, c) in access
  {
    set a | a in access && a.userId == user :: a.courseId
  }

  /** `course.id in accessible_courses_ids`. */
  function EnrolledIn(ids: set<int>): Course -> bool
  {
    (c: Course) => c.id in ids
  }

  /** `course.id not in accessible_courses_ids`. */
  function OtherThan(ids: set<int>): Course -> bool
  {
    (c: Course) => c.id !in ids
  }

  /** The two comprehensions of the page: (enrolled, other). Together they
      hold every course exactly once. */
  function Partition(all: seq<Course>, ids: set<int>): (r: (seq<Course>, seq<Course>))
    ensures forall c :: c in r.0 <==> c in all && c.id in ids
    ensures forall c :: c in r.1 <==> c in all && c.id !in ids
    ensures |r.0| + |r.1| == |all|
  {
    KeepSplit(all, EnrolledIn(ids), OtherThan(ids));
    (Keep(all, EnrolledIn(ids)), Keep(all, OtherThan(ids)))
  }

  /** Both lists keep the id order of the course table. */
  lemma PartitionKeepsOrder(all: seq<Course>, ids: set<int>)
    requires Pairwise(all, CourseIdBefore)
    ensures Pairwise(Partition(all, ids).0, CourseIdBefore)
    ensures Pairwise(Partition(all, ids).1, CourseIdBefore)
  {
    KeepPairwise(all, EnrolledIn(ids), CourseIdBefore);
    KeepPairwise(all, OtherThan(ids), CourseIdBefore);
  }

  /** Splitting the table at any point splits both lists at the same point:
      each list is filled in table order. */
  lemma PartitionAppend(a: seq<Course>, b: seq<Course>, ids: set<int>)
    ensures Partition(a + b, ids).0 == Partition(a, ids).0 + Partition(b, ids).0
    ensures Partition(a + b, ids).1 == Partition(a, ids).1 + Partition(b, ids).1
  {
    KeepAppend(a, b, EnrolledIn(ids));
    KeepAppend(a, b, OtherThan(ids));
  }
}
