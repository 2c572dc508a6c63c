/**
 * The entity shapes the course services work on: a course's embedded lesson list
 * (`ICourseData`), its reviews, and the enrollment with its per-lesson progress
 * (src/entities/Enrollment.ts). Courses and enrollments are loaded, changed in place
 * and saved, so they are classes; the records embedded in them are values.
 * Times are milliseconds; request numbers are integers.
 */
module CourseModel {
  import opened Wrappers

  datatype VideoStatus = UPLOADING | READY | FAILED

  datatype Link = Link(title: string, url: string)

  /** A lesson question; only how many a lesson has is used. */
  datatype Question = Question(text: string)

  /** One entry of a course's `courseData` list (`ICourseData`). */
  datatype CourseData = CourseData(
    id: string,
    title: string,
    index: int,
    videoSection: Option<string>,
    sectionIndex: Option<int>,
    description: string,
    videoLength: Option<int>,
    videoCfUid: Option<string>,
    videoStatus: Option<VideoStatus>,
    links: seq<Link>,
    questions: seq<Question>,
    createdAt: Option<int>,
    updatedAt: Option<int>)

  datatype Reply = Reply(user: string, comment: string, rating: Option<int>, createdAt: int)

  datatype Review = Review(
    id: string,
    userId: string,
    rating: int,
    comment: string,
    commentReplies: seq<Reply>,
    createdAt: int,
    updatedAt: int)

  datatype CourseStatus = DRAFT | PUBLISHED | ARCHIVED

  /**
   * A course row as the controllers load, change and save it: the columns the modelled
   * operations read or write (the teacher is held by the id of the user row).
   */
  class Course {
    const id: string
    var name: string
    var status: CourseStatus
    var publishedAt: Option<int>
    var teacher: Option<string>
    var courseData: seq<CourseData>
    var reviews: seq<Review>

    constructor (id: string, name: string, status: CourseStatus, publishedAt: Option<int>, teacher: Option<string>,
                 courseData: seq<CourseData>, reviews: seq<Review>)
      ensures this.id == id && this.name == name && this.status == status
      ensures this.publishedAt == publishedAt && this.teacher == teacher && this.courseData == courseData
      ensures this.reviews == reviews
    {
      this.id := id;
      this.name := name;
      this.status := status;
      this.publishedAt := publishedAt;
      this.teacher := teacher;
      this.courseData := courseData;
      this.reviews := reviews;
    }
  }

  datatype EnrollmentStatus = ACTIVE | COMPLETED | EXPIRED | DROPPED

  datatype LessonStatus = NOT_STARTED | IN_PROGRESS | COMPLETED

  /** Progress of one lesson inside an enrollment (`LessonProgress`). */
  datatype LessonProgress = LessonProgress(
    courseDataId: string,
    status: LessonStatus,
    progress: int,
    watchTimeSec: int,
    lastPositionSec: int,
    isCompleted: bool,
    startedAt: Option<int>,
    completedAt: Option<int>,
    lastWatchedAt: Option<int>,
    viewCount: int)

  /** An enrollment row with its embedded progress list. */
  class Enrollment {
    const userId: string
    const courseId: string
    var status: EnrollmentStatus
    var completedLessons: int
    var totalLessons: int
    var totalWatchTimeSec: int
    var completedAt: Option<int>
    var expiresAt: Option<int>
    var lessonProgress: seq<LessonProgress>

    constructor (userId: string, courseId: string, totalLessons: int, expiresAt: Option<int>)
      ensures this.userId == userId && this.courseId == courseId
      ensures status == EnrollmentStatus.ACTIVE && completedLessons == 0
      ensures this.totalLessons == totalLessons && totalWatchTimeSec == 0
      ensures completedAt == None && this.expiresAt == expiresAt && lessonProgress == []
    {
      this.userId := userId;
      this.courseId := courseId;
      status := EnrollmentStatus.ACTIVE;
      completedLessons := 0;
      this.totalLessons := totalLessons;
      totalWatchTimeSec := 0;
      completedAt := None;
      this.expiresAt := expiresAt;
      lessonProgress := [];
    }
  }

  /** Index of the first entry of `items` whose id is `id` (`findIndex`), if any. */
  function IndexOfId(items: seq<CourseData>, id: string): (r: Option<nat>)
    ensures r.None? <==> forall k :: 0 <= k < |items| ==> items[k].id != id
    ensures r.Some? ==> r.value < |items| && items[r.value].id == id
                        && forall k :: 0 <= k < r.value ==> items[k].id != id
  {
    if items == [] then None
    else if items[0].id == id then Some(0)
    else
      var rest := IndexOfId(items[1..], id);
      if rest.None? then None else Some(rest.value + 1)
  }
}
