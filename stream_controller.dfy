/**
 * The decision rules of the video-stream controller (src/controllers/cloudFlareStreamController.ts):
 * the order in which a token request is refused or granted, and how a progress report
 * updates an enrollment and its per-lesson progress list.
 */
module StreamController {
  import opened Wrappers
  import opened JsStrings
  import opened Base64
  import opened CourseModel
  import opened StreamToken

  // ---------------------------------------------------------------------------
  // getVideoToken

  /** The reply to a token request: the token, or an HTTP status with its message. */
  datatype TokenReply =
    | Granted(token: string, expiresIn: int, videoUid: string)
    | Refused(status: int, message: string, needsPurchase: bool)

  const TOKEN_EXPIRES_IN_SECONDS: int := 7200
  const TOKEN_HOURS: int := 2
  const AUTH_REQUIRED: string := "Authentication required"
  const LESSON_NOT_FOUND: string := "Lesson not found"
  const VIDEO_NOT_AVAILABLE: string := "Video not available for this lesson"
  const PURCHASE_REQUIRED: string := "You do not have access to this course. Please purchase it first."
  const TOKEN_FAILED: string := "Failed to generate video token"

  /** The stored spelling of a video status. */
  function StatusName(s: VideoStatus): string {
    match s
    case UPLOADING => "UPLOADING"
    case READY => "READY"
    case FAILED => "FAILED"
  }

  function NotReadyMessage(s: VideoStatus): string {
    "Video is " + ToLower(StatusName(s)) + ". Please try again later."
  }

  /** `!value` for an optional string: missing or empty. */
  predicate Missing(value: Option<string>) { value.None? || value.value == "" }

  /**
   * `getVideoToken`. `course` is the course lookup (`None` when no course has the id);
   * `keyIdEnv`/`jwkKeyEnv` the two settings the token service is built from. A lesson
   * with a uid but no status reaches `.toLowerCase()` on `undefined`, which throws and
   * is answered with 500.
   */
  function GetVideoToken(userId: Option<string>, courseId: string, lessonId: string,
                         course: Option<seq<CourseData>>, keyIdEnv: Option<string>, jwkKeyEnv: Option<string>,
                         table: EnrollmentTable, nowMs: int, jsonUtf8: JoseObject -> seq<byte>,
                         sign: (string, string) -> Result<seq<byte>, string>): (r: TokenReply)
    ensures Missing(userId) ==> r == Refused(401, AUTH_REQUIRED, false)
    ensures !Missing(userId) && course.None? ==> r == Refused(404, COURSE_NOT_FOUND, false)
    ensures !Missing(userId) && course.Some? && IndexOfId(course.value, lessonId).None? ==>
              r == Refused(404, LESSON_NOT_FOUND, false)
    ensures !Missing(userId) && course.Some? && IndexOfId(course.value, lessonId).Some? ==>
              var lesson := course.value[IndexOfId(course.value, lessonId).value];
              && (Missing(lesson.videoCfUid) ==> r == Refused(404, VIDEO_NOT_AVAILABLE, false))
              && (!Missing(lesson.videoCfUid) && lesson.videoStatus.None? ==> r == Refused(500, TOKEN_FAILED, false))
              && (!Missing(lesson.videoCfUid) && lesson.videoStatus.Some? && lesson.videoStatus != Some(READY) ==>
                    r == Refused(400, NotReadyMessage(lesson.videoStatus.value), false))
    ensures r.Granted? ==>
              && !Missing(userId) && course.Some? && IndexOfId(course.value, lessonId).Some?
              && var lesson := course.value[IndexOfId(course.value, lessonId).value];
              && Eligible(lesson)
              && VerifyAccess(table, userId.value, courseId, nowMs)
              && r.videoUid == lesson.videoCfUid.value
              && r.expiresIn == TOKEN_EXPIRES_IN_SECONDS
              && CreateTokenService(keyIdEnv, jwkKeyEnv).Success?
              && Success(r.token) == GenerateSignedToken(CreateTokenService(keyIdEnv, jwkKeyEnv).value, table,
                                       SignedUrlOptions(r.videoUid, userId.value, courseId, Some(TOKEN_HOURS)),
                                       nowMs, jsonUtf8, sign)
    ensures r.Refused? && r.needsPurchase <==> r == Refused(403, PURCHASE_REQUIRED, true)
  {
    if Missing(userId) then Refused(401, AUTH_REQUIRED, false)
    else if course.None? then Refused(404, COURSE_NOT_FOUND, false)
    else
      var found := IndexOfId(course.value, lessonId);
      if found.None? then Refused(404, LESSON_NOT_FOUND, false)
      else
        var lesson := course.value[found.value];
        if Missing(lesson.videoCfUid) then Refused(404, VIDEO_NOT_AVAILABLE, false)
        else if lesson.videoStatus.None? then Refused(500, TOKEN_FAILED, false)
        else if lesson.videoStatus != Some(READY) then Refused(400, NotReadyMessage(lesson.videoStatus.value), false)
        else
          var service := CreateTokenService(keyIdEnv, jwkKeyEnv);
          if service.Failure? then Refused(500, TOKEN_FAILED, false)
          else
            var token := GenerateSignedToken(service.value, table,
                                             SignedUrlOptions(lesson.videoCfUid.value, userId.value, courseId, Some(TOKEN_HOURS)),
                                             nowMs, jsonUtf8, sign);
            if token.Failure? && token.error == ACCESS_DENIED then Refused(403, PURCHASE_REQUIRED, true)
            else if token.Failure? then Refused(500, TOKEN_FAILED, false)
            else Granted(token.value, TOKEN_EXPIRES_IN_SECONDS, lesson.videoCfUid.value)
  }

  /**
   * Once every gate passes, the reply is decided by the entitlement alone when the
   * settings are present and signing cannot fail: granted exactly for an entitled user,
   * and 403 with `needsPurchase` otherwise.
   */
  lemma GrantedIffEntitled(userId: Option<string>, courseId: string, lessonId: string,
                           course: Option<seq<CourseData>>, keyIdEnv: Option<string>, jwkKeyEnv: Option<string>,
                           table: EnrollmentTable, nowMs: int, jsonUtf8: JoseObject -> seq<byte>,
                           sign: (string, string) -> Result<seq<byte>, string>)
    requires !Missing(userId) && course.Some? && IndexOfId(course.value, lessonId).Some?
    requires Eligible(course.value[IndexOfId(course.value, lessonId).value])
    requires CreateTokenService(keyIdEnv, jwkKeyEnv).Success?
    requires forall key, input :: sign(key, input).Success?
    ensures var r := GetVideoToken(userId, courseId, lessonId, course, keyIdEnv, jwkKeyEnv, table, nowMs, jsonUtf8, sign);
            && (r.Granted? <==> VerifyAccess(table, userId.value, courseId, nowMs))
            && (!r.Granted? ==> r == Refused(403, PURCHASE_REQUIRED, true))
  {
    var lesson := course.value[IndexOfId(course.value, lessonId).value];
    var service := CreateTokenService(keyIdEnv, jwkKeyEnv).value;
    var opts := SignedUrlOptions(lesson.videoCfUid.value, userId.value, courseId, Some(TOKEN_HOURS));
    var token := GenerateSignedToken(service, table, opts, nowMs, jsonUtf8, sign);
    assert sign(service.jwkKey, SigningInput(service, opts, nowMs, jsonUtf8)).Success?;
    assert token.Failure? ==> token.error == ACCESS_DENIED;
  }

  // ---------------------------------------------------------------------------
  // trackVideoProgress

  /** The body of a progress report; each number may be absent. */
  datatype ProgressReport = ProgressReport(watchTimeSec: Option<int>, lastPositionSec: Option<int>, progress: Option<int>)

  const COMPLETION_THRESHOLD: int := 90
  const NOT_ENROLLED: string := "You are not enrolled in this course"

  /** `n || 0` for an optional number. */
  function OrZero(n: Option<int>): int { if n.Some? then n.value else 0 }

  /** `progress >= 90`; an absent value compares false. */
  predicate ReportsCompletion(report: ProgressReport) {
    report.progress.Some? && report.progress.value >= COMPLETION_THRESHOLD
  }

  /** The entry created for a lesson watched for the first time. */
  function StartedLesson(lessonId: string, now: int): LessonProgress {
    LessonProgress(lessonId, LessonStatus.IN_PROGRESS, 0, 0, 0, false, Some(now), None, Some(now), 0)
  }

  /** One lesson-progress entry after a report: counters advanced, completion set once. */
  function WatchedLesson(entry: LessonProgress, report: ProgressReport, now: int): (r: LessonProgress)
    ensures r.courseDataId == entry.courseDataId
    ensures r.watchTimeSec == entry.watchTimeSec + OrZero(report.watchTimeSec)
    ensures r.viewCount == entry.viewCount + 1
    ensures r.lastPositionSec == OrZero(report.lastPositionSec)
    ensures r.progress == (if OrZero(report.progress) == 0 then entry.progress else report.progress.value)
    ensures r.isCompleted <==> entry.isCompleted || ReportsCompletion(report)
    ensures entry.isCompleted ==> r.completedAt == entry.completedAt && r.status == entry.status
    ensures !entry.isCompleted && ReportsCompletion(report) ==>
              r.completedAt == Some(now) && r.status == LessonStatus.COMPLETED
  {
    var updated := entry.(watchTimeSec := entry.watchTimeSec + OrZero(report.watchTimeSec),
                          lastPositionSec := OrZero(report.lastPositionSec),
                          progress := if OrZero(report.progress) == 0 then entry.progress else report.progress.value,
                          lastWatchedAt := Some(now),
                          viewCount := entry.viewCount + 1);
    if ReportsCompletion(report) && !entry.isCompleted then
      updated.(isCompleted := true, completedAt := Some(now), status := LessonStatus.COMPLETED)
    else updated
  }

  /** Index of the first entry for `lessonId` (`find`), if any. */
  function IndexOfLesson(entries: seq<LessonProgress>, lessonId: string): (r: Option<nat>)
    ensures r.None? <==> forall k :: 0 <= k < |entries| ==> entries[k].courseDataId != lessonId
    ensures r.Some? ==> r.value < |entries| && entries[r.value].courseDataId == lessonId
                        && forall k :: 0 <= k < r.value ==> entries[k].courseDataId != lessonId
  {
    if entries == [] then None
    else if entries[0].courseDataId == lessonId then Some(0)
    else
      var rest := IndexOfLesson(entries[1..], lessonId);
      if rest.None? then None else Some(rest.value + 1)
  }

  /** Whether this report completes the lesson for the first time. */
  predicate NewlyCompletes(entries: seq<LessonProgress>, lessonId: string, report: ProgressReport) {
    ReportsCompletion(report)
    && (IndexOfLesson(entries, lessonId).None? || !entries[IndexOfLesson(entries, lessonId).value].isCompleted)
  }

  /** The progress list after a report: a new entry for an unseen lesson, else the entry updated. */
  function ProgressAfter(entries: seq<LessonProgress>, lessonId: string, report: ProgressReport, now: int)
    : (r: seq<LessonProgress>)
    ensures IndexOfLesson(entries, lessonId).None? ==>
              r == entries + [WatchedLesson(StartedLesson(lessonId, now), report, now)]
    ensures IndexOfLesson(entries, lessonId).Some? ==>
              var i := IndexOfLesson(entries, lessonId).value;
              && |r| == |entries| && r[i] == WatchedLesson(entries[i], report, now)
              && forall k :: 0 <= k < |entries| && k != i ==> r[k] == entries[k]
  {
    var found := IndexOfLesson(entries, lessonId);
    if found.None? then entries + [WatchedLesson(StartedLesson(lessonId, now), report, now)]
    else entries[found.value := WatchedLesson(entries[found.value], report, now)]
  }

  /** `entry` is what `find` returns for `lessonId` in `entries`. */
  predicate FoundEntry(entries: seq<LessonProgress>, lessonId: string, entry: LessonProgress) {
    IndexOfLesson(entries, lessonId).Some? && entry == entries[IndexOfLesson(entries, lessonId).value]
  }

  /** After a report the lesson is found at its old place, or last when it was new. */
  lemma ProgressAfterIndex(entries: seq<LessonProgress>, lessonId: string, report: ProgressReport, now: int)
    ensures IndexOfLesson(ProgressAfter(entries, lessonId, report, now), lessonId)
              == if IndexOfLesson(entries, lessonId).Some? then IndexOfLesson(entries, lessonId) else Some(|entries|)
  {
    var after := ProgressAfter(entries, lessonId, report, now);
    var expected := if IndexOfLesson(entries, lessonId).Some? then IndexOfLesson(entries, lessonId).value else |entries|;
    assert after[expected].courseDataId == lessonId;
    assert IndexOfLesson(after, lessonId).Some?;
  }

  /** Each lesson has at most one entry. */
  predicate UniqueLessons(entries: seq<LessonProgress>) {
    forall i, j :: 0 <= i < j < |entries| ==> entries[i].courseDataId != entries[j].courseDataId
  }

  /** Number of completed entries. */
  function CompletedCount(entries: seq<LessonProgress>): (n: nat)
    ensures n <= |entries|
  {
    if entries == [] then 0
    else CompletedCount(entries[..|entries| - 1]) + (if entries[|entries| - 1].isCompleted then 1 else 0)
  }

  /** Total of the entries' watch times. */
  function WatchTotal(entries: seq<LessonProgress>): int {
    if entries == [] then 0
    else WatchTotal(entries[..|entries| - 1]) + entries[|entries| - 1].watchTimeSec
  }

  /**
   * The enrollment's counters agree with its progress list: `completedLessons` counts the
   * completed entries and `totalWatchTimeSec` is the sum of the entries' watch times.
   */
  predicate Tallied(entries: seq<LessonProgress>, completedLessons: int, totalWatchTimeSec: int) {
    UniqueLessons(entries) && completedLessons == CompletedCount(entries) && totalWatchTimeSec == WatchTotal(entries)
  }

  lemma {:induction false} TalliesAppend(entries: seq<LessonProgress>, e: LessonProgress)
    ensures CompletedCount(entries + [e]) == CompletedCount(entries) + (if e.isCompleted then 1 else 0)
    ensures WatchTotal(entries + [e]) == WatchTotal(entries) + e.watchTimeSec
  {
    assert (entries + [e])[..|entries|] == entries;
  }

  lemma {:induction false} TalliesUpdate(entries: seq<LessonProgress>, i: nat, e: LessonProgress)
    requires i < |entries|
    ensures CompletedCount(entries[i := e]) ==
              CompletedCount(entries) - (if entries[i].isCompleted then 1 else 0) + (if e.isCompleted then 1 else 0)
    ensures WatchTotal(entries[i := e]) == WatchTotal(entries) - entries[i].watchTimeSec + e.watchTimeSec
    decreases |entries|
  {
    var last := |entries| - 1;
    if i == last {
      assert entries[i := e][..last] == entries[..last];
    } else {
      TalliesUpdate(entries[..last], i, e);
      assert entries[i := e][..last] == entries[..last][i := e];
    }
  }

  /**
   * A report keeps each lesson to one entry, completes a lesson at most once, and moves
   * the completed count and the watch total exactly as the enrollment counters move.
   */
  lemma ProgressAfterTallies(entries: seq<LessonProgress>, lessonId: string, report: ProgressReport, now: int)
    ensures UniqueLessons(entries) ==> UniqueLessons(ProgressAfter(entries, lessonId, report, now))
    ensures CompletedCount(ProgressAfter(entries, lessonId, report, now)) ==
              CompletedCount(entries) + (if NewlyCompletes(entries, lessonId, report) then 1 else 0)
    ensures WatchTotal(ProgressAfter(entries, lessonId, report, now)) ==
              WatchTotal(entries) + OrZero(report.watchTimeSec)
  {
    var found := IndexOfLesson(entries, lessonId);
    if found.None? {
      TalliesAppend(entries, WatchedLesson(StartedLesson(lessonId, now), report, now));
    } else {
      TalliesUpdate(entries, found.value, WatchedLesson(entries[found.value], report, now));
    }
  }

  /** A report keeps an enrollment's counters in agreement with its progress list. */
  lemma TalliedAfterReport(entries: seq<LessonProgress>, completedLessons: int, totalWatchTimeSec: int,
                           lessonId: string, report: ProgressReport, now: int)
    requires Tallied(entries, completedLessons, totalWatchTimeSec)
    ensures Tallied(ProgressAfter(entries, lessonId, report, now),
                    completedLessons + (if NewlyCompletes(entries, lessonId, report) then 1 else 0),
                    totalWatchTimeSec + OrZero(report.watchTimeSec))
  {
    ProgressAfterTallies(entries, lessonId, report, now);
  }

  /** A completed lesson stays completed, and a second completing report counts nothing. */
  lemma CompletionCountedOnce(entries: seq<LessonProgress>, lessonId: string, first: ProgressReport,
                              second: ProgressReport, t1: int, t2: int)
    requires ReportsCompletion(first)
    ensures !NewlyCompletes(ProgressAfter(entries, lessonId, first, t1), lessonId, second)
  {
    var after := ProgressAfter(entries, lessonId, first, t1);
    var found := IndexOfLesson(entries, lessonId);
    var i := if found.None? then |entries| else found.value;
    assert after[i].courseDataId == lessonId && after[i].isCompleted;
    assert IndexOfLesson(after, lessonId) == Some(i);
  }

  /** `enrollment.totalLessons || 1`. */
  function LessonsToComplete(totalLessons: int): int { if totalLessons == 0 then 1 else totalLessons }

  /** The reply to a progress report. */
  datatype ProgressReply =
    | Updated(lesson: LessonProgress, completedLessons: int, totalLessons: int)
    | Denied(status: int, message: string)

  /**
   * The update `trackVideoProgress` makes to a found enrollment: the lesson's entry is
   * created or updated, the counters move, and the enrollment completes once enough
   * lessons are done. Returns the lesson's new entry.
   */
  method RecordProgress(enrollment: Enrollment, lessonId: string, report: ProgressReport, now: int)
    returns (lesson: LessonProgress)
    modifies enrollment
    ensures var before := old(enrollment.lessonProgress);
            && enrollment.lessonProgress == ProgressAfter(before, lessonId, report, now)
            && enrollment.completedLessons ==
                 old(enrollment.completedLessons) + (if NewlyCompletes(before, lessonId, report) then 1 else 0)
            && enrollment.totalWatchTimeSec == old(enrollment.totalWatchTimeSec) + OrZero(report.watchTimeSec)
            && enrollment.totalLessons == old(enrollment.totalLessons)
            && enrollment.expiresAt == old(enrollment.expiresAt)
    ensures old(enrollment.completedAt).Some? ==>
              enrollment.completedAt == old(enrollment.completedAt) && enrollment.status == old(enrollment.status)
    ensures old(enrollment.completedAt).None? ==>
              if enrollment.completedLessons >= LessonsToComplete(enrollment.totalLessons)
              then enrollment.completedAt == Some(now) && enrollment.status == EnrollmentStatus.COMPLETED
              else enrollment.completedAt == None && enrollment.status == old(enrollment.status)
    ensures lesson in enrollment.lessonProgress && lesson.courseDataId == lessonId
    ensures FoundEntry(enrollment.lessonProgress, lessonId, lesson)
    ensures old(Tallied(enrollment.lessonProgress, enrollment.completedLessons, enrollment.totalWatchTimeSec)) ==>
              Tallied(enrollment.lessonProgress, enrollment.completedLessons, enrollment.totalWatchTimeSec)
  {
    var before, counted, watchedBefore := enrollment.lessonProgress, enrollment.completedLessons, enrollment.totalWatchTimeSec;
    if Tallied(before, counted, watchedBefore) {
      TalliedAfterReport(before, counted, watchedBefore, lessonId, report, now);
    }
    var entries, entry, completesNow := UpdateLessonEntry(before, lessonId, report, now);
    var completedLessons := counted + (if completesNow then 1 else 0);
    var watched := watchedBefore + OrZero(report.watchTimeSec);
    var completedAt, status := enrollment.completedAt, enrollment.status;
    if completedLessons >= LessonsToComplete(enrollment.totalLessons) && completedAt.None? {
      completedAt, status := Some(now), EnrollmentStatus.COMPLETED;
    }
    enrollment.completedLessons := completedLessons;
    enrollment.lessonProgress := entries;
    enrollment.totalWatchTimeSec := watched;
    enrollment.completedAt := completedAt;
    enrollment.status := status;
    assert enrollment.lessonProgress == entries && enrollment.completedLessons == completedLessons
           && enrollment.totalWatchTimeSec == watched;
    lesson := entry;
  }

  /**
   * The lesson list step of `trackVideoProgress`: finds the lesson's entry (or appends a
   * fresh one), tells whether this report completes it for the first time, and replaces
   * it with its watched version.
   */
  method UpdateLessonEntry(before: seq<LessonProgress>, lessonId: string, report: ProgressReport, now: int)
    returns (entries: seq<LessonProgress>, entry: LessonProgress, completesNow: bool)
    ensures entries == ProgressAfter(before, lessonId, report, now)
    ensures entry in entries && entry.courseDataId == lessonId
    ensures FoundEntry(entries, lessonId, entry)
    ensures completesNow == NewlyCompletes(before, lessonId, report)
  {
    entries := before;
    var found := IndexOfLesson(entries, lessonId);
    var index: nat;
    if found.None? {
      entry := StartedLesson(lessonId, now);
      entries := entries + [entry];
      index := |entries| - 1;
    } else {
      index := found.value;
      entry := entries[index];
    }
    completesNow := ReportsCompletion(report) && !entry.isCompleted;
    entry := WatchedLesson(entry, report, now);
    entries := entries[index := entry];
    assert entries[index] == entry;
    ProgressAfterIndex(before, lessonId, report, now);
  }

  /**
   * `trackVideoProgress` on the enrollment found for the user and course (`null` when
   * there is none, which is answered with 403). A request without a user is answered
   * with 401 before any lookup. Neither refusal changes anything.
   */
  method TrackVideoProgress(userId: Option<string>, enrollment: Enrollment?, lessonId: string,
                            report: ProgressReport, now: int)
    returns (r: ProgressReply)
    modifies enrollment
    ensures Missing(userId) ==> r == Denied(401, AUTH_REQUIRED) && (enrollment != null ==> unchanged(enrollment))
    ensures !Missing(userId) && enrollment == null ==> r == Denied(403, NOT_ENROLLED)
    ensures !Missing(userId) && enrollment != null ==>
              var before := old(enrollment.lessonProgress);
              && enrollment.lessonProgress == ProgressAfter(before, lessonId, report, now)
              && enrollment.completedLessons ==
                   old(enrollment.completedLessons) + (if NewlyCompletes(before, lessonId, report) then 1 else 0)
              && enrollment.totalWatchTimeSec == old(enrollment.totalWatchTimeSec) + OrZero(report.watchTimeSec)
              && enrollment.totalLessons == old(enrollment.totalLessons)
              && enrollment.expiresAt == old(enrollment.expiresAt)
    ensures !Missing(userId) && enrollment != null && old(enrollment.completedAt).Some? ==>
              enrollment.completedAt == old(enrollment.completedAt) && enrollment.status == old(enrollment.status)
    ensures !Missing(userId) && enrollment != null && old(enrollment.completedAt).None? ==>
              if enrollment.completedLessons >= LessonsToComplete(enrollment.totalLessons)
              then enrollment.completedAt == Some(now) && enrollment.status == EnrollmentStatus.COMPLETED
              else enrollment.completedAt == None && enrollment.status == old(enrollment.status)
    ensures !Missing(userId) && enrollment != null ==>
              r.Updated? && r.lesson in enrollment.lessonProgress && r.lesson.courseDataId == lessonId
              && FoundEntry(enrollment.lessonProgress, lessonId, r.lesson)
              && r.completedLessons == enrollment.completedLessons && r.totalLessons == enrollment.totalLessons
    ensures enrollment != null && old(Tallied(enrollment.lessonProgress, enrollment.completedLessons,
                                              enrollment.totalWatchTimeSec)) ==>
              Tallied(enrollment.lessonProgress, enrollment.completedLessons, enrollment.totalWatchTimeSec)
  {
    if Missing(userId) {
      return Denied(401, AUTH_REQUIRED);
    }
    if enrollment == null {
      return Denied(403, NOT_ENROLLED);
    }
    var lesson := RecordProgress(enrollment, lessonId, report, now);
    return Updated(lesson, enrollment.completedLessons, enrollment.totalLessons);
  }
}
