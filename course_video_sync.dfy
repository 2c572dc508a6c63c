/**
 * The course/video synchronisation service (src/services/courseVideoSyncService.ts):
 * uploading a whole course chapter by chapter and rebuilding its lesson list, adding one
 * video to an existing chapter, and grouping a course's lessons into chapters for display.
 *
 * The course is loaded, changed in place and saved, so it is the `Course` class; the
 * uploader is a function parameter giving, for the options of one upload, the Stream
 * video or the error it throws. The clock is a parameter.
 */
module CourseVideoSync {
  import opened Wrappers
  import opened JsStrings
  import opened CourseModel
  import opened StreamUploader

  const COURSE_NOT_FOUND: string := "Course not found"
  const CHAPTER_NOT_FOUND: string := "Chapter not found"
  /** The TypeError `slugify` raises when the chapter title it is given is undefined. */
  const UNDEFINED_TITLE: string := "Cannot read properties of undefined (reading 'toLowerCase')"

  // ---------------------------------------------------------------------------
  // mapVideoStatus

  /** `mapVideoStatus`: the stored status of a Stream processing state. */
  function MapVideoStatus(cfStatus: Option<string>): (r: VideoStatus)
    ensures r == READY <==> cfStatus == Some("ready")
    ensures r == FAILED <==> cfStatus == Some("error")
    ensures r == UPLOADING <==> cfStatus != Some("ready") && cfStatus != Some("error")
  {
    match cfStatus
    case Some("ready") => READY
    case Some("queued") => UPLOADING
    case Some("inprogress") => UPLOADING
    case Some("error") => FAILED
    case _ => UPLOADING
  }

  // ---------------------------------------------------------------------------
  // Lesson ids

  /** `lesson-{chapter + 1}-{lesson + 1}`. */
  function LessonId(chapter: int, lesson: int): string {
    "lesson-" + IntToString(chapter + 1) + "-" + IntToString(lesson + 1)
  }

  /** `chapter-{chapter + 1}`. */
  function ChapterId(chapter: int): string {
    "chapter-" + IntToString(chapter + 1)
  }

  /** The index of the first '-' in `s`, or `|s|` when there is none. */
  function DashIndex(s: string): (i: nat)
    ensures i <= |s|
  {
    if s == [] || s[0] == '-' then 0 else 1 + DashIndex(s[1..])
  }

  lemma {:induction false} DashIndexAfterDigits(a: string, b: string)
    requires AllDigits(a)
    ensures DashIndex(a + "-" + b) == |a|
  {
    if a != [] {
      assert (a + "-" + b)[1..] == a[1..] + "-" + b;
      DashIndexAfterDigits(a[1..], b);
    } else {
      assert a + "-" + b == "-" + b;
    }
  }

  /** Two digit strings joined by '-' can be split back apart. */
  lemma SplitAtDash(a: string, b: string, c: string, d: string)
    requires AllDigits(a) && AllDigits(c)
    requires a + "-" + b == c + "-" + d
    ensures a == c && b == d
  {
    DashIndexAfterDigits(a, b);
    DashIndexAfterDigits(c, d);
    var x := a + "-" + b;
    assert a == x[..|a|];
    assert c == x[..|c|];
    assert b == x[|a| + 1..];
    assert d == x[|c| + 1..];
  }

  /** After its seven-character prefix, a lesson id is the two numbers joined by '-'. */
  lemma LessonIdTail(chapter: nat, lesson: nat)
    ensures |LessonId(chapter, lesson)| > 7
    ensures LessonId(chapter, lesson)[7..] == NatToString(chapter + 1) + "-" + NatToString(lesson + 1)
  {
    var tail := NatToString(chapter + 1) + "-" + NatToString(lesson + 1);
    assert LessonId(chapter, lesson) == "lesson-" + tail;
  }

  /** Distinct (chapter, lesson) positions get distinct lesson ids. */
  lemma LessonIdInjective(s1: nat, l1: nat, s2: nat, l2: nat)
    requires LessonId(s1, l1) == LessonId(s2, l2)
    ensures s1 == s2 && l1 == l2
  {
    LessonIdTail(s1, l1);
    LessonIdTail(s2, l2);
    SplitAtDash(NatToString(s1 + 1), NatToString(l1 + 1), NatToString(s2 + 1), NatToString(l2 + 1));
    NatToStringInjective(s1 + 1, s2 + 1);
    NatToStringInjective(l1 + 1, l2 + 1);
  }

  // ---------------------------------------------------------------------------
  // uploadAndSyncCourseVideos

  /** One lesson of the upload request. */
  datatype LessonVideo = LessonVideo(
    title: string,
    description: string,
    videoFilePath: string,
    videoLength: int,
    links: Option<seq<Link>>)

  /** `ChapterVideoData`; its `sectionIndex` is not read by the service. */
  datatype ChapterVideoData = ChapterVideoData(sectionTitle: string, sectionIndex: int, lessons: seq<LessonVideo>)

  /** The position of a lesson in the request: chapter `section`, lesson `lesson` in it. */
  datatype Slot = Slot(section: nat, lesson: nat)

  predicate ValidSlot(chapters: seq<ChapterVideoData>, p: Slot) {
    p.section < |chapters| && p.lesson < |chapters[p.section].lessons|
  }

  predicate ValidSlots(chapters: seq<ChapterVideoData>, slots: seq<Slot>) {
    forall g :: 0 <= g < |slots| ==> ValidSlot(chapters, slots[g])
  }

  /** Chapter-then-lesson order of positions. */
  predicate Before(p: Slot, q: Slot) {
    p.section < q.section || (p.section == q.section && p.lesson < q.lesson)
  }

  function ChapterSlots(section: nat, count: nat): (r: seq<Slot>)
    ensures |r| == count && forall l :: 0 <= l < count ==> r[l] == Slot(section, l)
  {
    seq(count, l requires 0 <= l < count => Slot(section, l))
  }

  /** The positions the two nested loops visit in their first `s` outer rounds. */
  function SlotsUpTo(chapters: seq<ChapterVideoData>, s: nat): seq<Slot>
    requires s <= |chapters|
  {
    if s == 0 then [] else SlotsUpTo(chapters, s - 1) + ChapterSlots(s - 1, |chapters[s - 1].lessons|)
  }

  function LessonCount(chapters: seq<ChapterVideoData>, s: nat): nat
    requires s <= |chapters|
  {
    if s == 0 then 0 else LessonCount(chapters, s - 1) + |chapters[s - 1].lessons|
  }

  /**
   * The visited positions: one per lesson, all valid, strictly increasing in
   * chapter-then-lesson order, and every lesson of the first `s` chapters among them.
   */
  lemma {:induction false} SlotsUpToShape(chapters: seq<ChapterVideoData>, s: nat)
    requires s <= |chapters|
    ensures var slots := SlotsUpTo(chapters, s);
            && |slots| == LessonCount(chapters, s)
            && ValidSlots(chapters, slots)
            && (forall g :: 0 <= g < |slots| ==> slots[g].section < s)
            && (forall g, h :: 0 <= g < h < |slots| ==> Before(slots[g], slots[h]))
            && (forall c, l :: 0 <= c < s && 0 <= l < |chapters[c].lessons| ==> Slot(c, l) in slots)
  {
    if s > 0 {
      SlotsUpToShape(chapters, s - 1);
      var prev := SlotsUpTo(chapters, s - 1);
      var last := ChapterSlots(s - 1, |chapters[s - 1].lessons|);
      var slots := prev + last;
      forall c, l | 0 <= c < s && 0 <= l < |chapters[c].lessons| ensures Slot(c, l) in slots {
        if c == s - 1 {
          assert slots[|prev| + l] == Slot(c, l);
        } else {
          assert Slot(c, l) in prev;
        }
      }
    }
  }

  /** Every position visited in fewer outer rounds comes first. */
  lemma {:induction false} SlotsUpToPrefix(chapters: seq<ChapterVideoData>, s: nat, t: nat)
    requires s <= t <= |chapters|
    ensures |SlotsUpTo(chapters, s)| <= |SlotsUpTo(chapters, t)|
    ensures SlotsUpTo(chapters, t)[..|SlotsUpTo(chapters, s)|] == SlotsUpTo(chapters, s)
    decreases t
  {
    if s < t {
      SlotsUpToPrefix(chapters, s, t - 1);
    }
  }

  /** All positions of the request. */
  function Slots(chapters: seq<ChapterVideoData>): seq<Slot> {
    SlotsUpTo(chapters, |chapters|)
  }

  /** The uploader options for the lesson at `p`. */
  function SlotOptions(courseId: string, courseName: string, chapters: seq<ChapterVideoData>, p: Slot): VideoUploadOptions
    requires ValidSlot(chapters, p)
  {
    var chapter := chapters[p.section];
    var lesson := chapter.lessons[p.lesson];
    VideoUploadOptions(courseId, courseName, ChapterId(p.section), chapter.sectionTitle, p.section + 1,
                       LessonId(p.section, p.lesson), lesson.title, p.lesson + 1, lesson.videoFilePath, Some(true))
  }

  /** The `courseData` entry built for the lesson at `p` once its upload returned `video`. */
  function SlotEntry(chapters: seq<ChapterVideoData>, p: Slot, index: nat, video: StreamVideo, now: int): CourseData
    requires ValidSlot(chapters, p)
  {
    var chapter := chapters[p.section];
    var lesson := chapter.lessons[p.lesson];
    CourseData(LessonId(p.section, p.lesson), lesson.title, index, Some(chapter.sectionTitle), Some(p.section),
               lesson.description, Some(lesson.videoLength), Some(video.uid), Some(MapVideoStatus(video.state)),
               lesson.links.GetOr([]), [], Some(now), Some(now))
  }

  /** What the uploader returns for each position of `slots`, in order. */
  function Uploaded(courseId: string, courseName: string, chapters: seq<ChapterVideoData>, slots: seq<Slot>,
                    upload: VideoUploadOptions -> Result<StreamVideo, string>): (r: seq<Result<StreamVideo, string>>)
    requires ValidSlots(chapters, slots)
    ensures |r| == |slots|
  {
    seq(|slots|, g requires 0 <= g < |slots| => upload(SlotOptions(courseId, courseName, chapters, slots[g])))
  }

  /** One more position adds its own upload result. */
  lemma UploadedSnoc(courseId: string, courseName: string, chapters: seq<ChapterVideoData>, slots: seq<Slot>, p: Slot,
                     upload: VideoUploadOptions -> Result<StreamVideo, string>)
    requires ValidSlots(chapters, slots) && ValidSlot(chapters, p)
    ensures ValidSlots(chapters, slots + [p])
    ensures Uploaded(courseId, courseName, chapters, slots + [p], upload)
            == Uploaded(courseId, courseName, chapters, slots, upload) + [upload(SlotOptions(courseId, courseName, chapters, p))]
  {
    assert forall g :: 0 <= g < |slots| ==> (slots + [p])[g] == slots[g];
  }

  /** The results of a prefix of the positions are a prefix of the results. */
  lemma UploadedPrefix(courseId: string, courseName: string, chapters: seq<ChapterVideoData>, slots: seq<Slot>, k: nat,
                       upload: VideoUploadOptions -> Result<StreamVideo, string>)
    requires ValidSlots(chapters, slots) && k <= |slots|
    ensures ValidSlots(chapters, slots[..k])
    ensures Uploaded(courseId, courseName, chapters, slots, upload)[..k] == Uploaded(courseId, courseName, chapters, slots[..k], upload)
  {
    assert forall g :: 0 <= g < k ==> slots[..k][g] == slots[g];
  }

  /**
   * The lesson list built from the upload results `outcomes` of the positions `slots`, in
   * order, each entry numbered by how many came before it; the first failed upload ends it
   * with that upload's error.
   */
  function SyncEntries(chapters: seq<ChapterVideoData>, slots: seq<Slot>, outcomes: seq<Result<StreamVideo, string>>,
                       now: int): (r: Result<seq<CourseData>, string>)
    requires ValidSlots(chapters, slots) && |outcomes| == |slots|
    ensures r.Success? ==> |r.value| == |slots|
  {
    if slots == [] then Success([])
    else
      var n := |slots| - 1;
      var prev := SyncEntries(chapters, slots[..n], outcomes[..n], now);
      if prev.Failure? then prev
      else if outcomes[n].Failure? then Failure(outcomes[n].error)
      else Success(prev.value + [SlotEntry(chapters, slots[n], |prev.value|, outcomes[n].value, now)])
  }

  /** One more position succeeds exactly when the list so far did and its own upload does. */
  lemma SyncSucceedsStep(chapters: seq<ChapterVideoData>, slots: seq<Slot>, outcomes: seq<Result<StreamVideo, string>>,
                         now: int)
    requires ValidSlots(chapters, slots) && |outcomes| == |slots| && slots != []
    ensures ValidSlots(chapters, slots[..|slots| - 1])
    ensures SyncEntries(chapters, slots, outcomes, now).Success?
            <==> SyncEntries(chapters, slots[..|slots| - 1], outcomes[..|slots| - 1], now).Success?
                 && outcomes[|slots| - 1].Success?
  {
  }

  /** The sync succeeds exactly when every upload does. */
  lemma {:induction false} SyncSucceedsIff(chapters: seq<ChapterVideoData>, slots: seq<Slot>,
                                           outcomes: seq<Result<StreamVideo, string>>, now: int)
    requires ValidSlots(chapters, slots) && |outcomes| == |slots|
    ensures SyncEntries(chapters, slots, outcomes, now).Success? <==> forall g :: 0 <= g < |outcomes| ==> outcomes[g].Success?
  {
    if slots != [] {
      var n := |slots| - 1;
      SyncSucceedsStep(chapters, slots, outcomes, now);
      SyncSucceedsIff(chapters, slots[..n], outcomes[..n], now);
      var init := outcomes[..n];
      if forall g :: 0 <= g < |outcomes| ==> outcomes[g].Success? {
        forall g | 0 <= g < n ensures init[g].Success? {
          assert init[g] == outcomes[g];
        }
      } else {
        var g :| 0 <= g < |outcomes| && outcomes[g].Failure?;
        if g < n {
          assert init[g] == outcomes[g];
        } else {
          assert g == n;
        }
      }
    }
  }

  /** A successful sync ends with the entry of its last position, after the entries of the others. */
  lemma SyncEntriesLast(chapters: seq<ChapterVideoData>, slots: seq<Slot>, outcomes: seq<Result<StreamVideo, string>>,
                        now: int)
    requires ValidSlots(chapters, slots) && |outcomes| == |slots| && slots != []
    requires SyncEntries(chapters, slots, outcomes, now).Success?
    ensures ValidSlots(chapters, slots[..|slots| - 1])
    ensures var n := |slots| - 1;
            var prev := SyncEntries(chapters, slots[..n], outcomes[..n], now);
            && prev.Success? && outcomes[n].Success?
            && SyncEntries(chapters, slots, outcomes, now).value
               == prev.value + [SlotEntry(chapters, slots[n], |prev.value|, outcomes[n].value, now)]
  {
  }

  /** The entry at position `g` of a successful sync is built from the `g`-th upload and numbered `g`. */
  lemma {:induction false} SyncEntryAt(chapters: seq<ChapterVideoData>, slots: seq<Slot>,
                                       outcomes: seq<Result<StreamVideo, string>>, now: int, g: nat)
    requires ValidSlots(chapters, slots) && |outcomes| == |slots| && g < |slots|
    requires SyncEntries(chapters, slots, outcomes, now).Success?
    ensures outcomes[g].Success?
    ensures SyncEntries(chapters, slots, outcomes, now).value[g] == SlotEntry(chapters, slots[g], g, outcomes[g].value, now)
    decreases |slots|
  {
    var n := |slots| - 1;
    SyncEntriesLast(chapters, slots, outcomes, now);
    var prev := SyncEntries(chapters, slots[..n], outcomes[..n], now).value;
    if g < n {
      SyncEntryAt(chapters, slots[..n], outcomes[..n], now, g);
      assert slots[..n][g] == slots[g] && outcomes[..n][g] == outcomes[g];
      assert outcomes[g].Success?;
      assert SyncEntries(chapters, slots, outcomes, now).value[g] == prev[g];
    } else {
      assert g == n && outcomes[n].Success?;
    }
  }

  /**
   * A successful sync holds one entry per position, in order, built from that position's
   * upload and numbered by its place in the list.
   */
  lemma SyncEntriesAt(chapters: seq<ChapterVideoData>, slots: seq<Slot>,
                      outcomes: seq<Result<StreamVideo, string>>, now: int)
    requires ValidSlots(chapters, slots) && |outcomes| == |slots|
    requires SyncEntries(chapters, slots, outcomes, now).Success?
    ensures var entries := SyncEntries(chapters, slots, outcomes, now).value;
            && |entries| == |slots|
            && forall g :: 0 <= g < |slots| ==>
                 outcomes[g].Success? && entries[g] == SlotEntry(chapters, slots[g], g, outcomes[g].value, now)
  {
    forall g | 0 <= g < |slots|
      ensures outcomes[g].Success?
      ensures SyncEntries(chapters, slots, outcomes, now).value[g] == SlotEntry(chapters, slots[g], g, outcomes[g].value, now)
    {
      SyncEntryAt(chapters, slots, outcomes, now, g);
    }
  }

  /** A failed sync reports the error of the first failed upload. */
  lemma {:induction false} SyncFirstFailure(chapters: seq<ChapterVideoData>, slots: seq<Slot>,
                                            outcomes: seq<Result<StreamVideo, string>>, now: int)
    requires ValidSlots(chapters, slots) && |outcomes| == |slots|
    requires SyncEntries(chapters, slots, outcomes, now).Failure?
    ensures exists g :: 0 <= g < |outcomes| && outcomes[g].Failure?
                        && SyncEntries(chapters, slots, outcomes, now).error == outcomes[g].error
                        && forall h :: 0 <= h < g ==> outcomes[h].Success?
  {
    var n := |slots| - 1;
    SyncSucceedsStep(chapters, slots, outcomes, now);
    var prev := SyncEntries(chapters, slots[..n], outcomes[..n], now);
    assert forall h :: 0 <= h < n ==> outcomes[..n][h] == outcomes[h];
    if prev.Failure? {
      SyncFirstFailure(chapters, slots[..n], outcomes[..n], now);
    } else {
      SyncSucceedsIff(chapters, slots[..n], outcomes[..n], now);
      assert outcomes[n].Failure?;
    }
  }

  /** A sync whose list without its last position failed fails the same way. */
  lemma SyncPrefixFailed(chapters: seq<ChapterVideoData>, slots: seq<Slot>, outcomes: seq<Result<StreamVideo, string>>,
                         now: int)
    requires ValidSlots(chapters, slots) && |outcomes| == |slots| && slots != []
    ensures ValidSlots(chapters, slots[..|slots| - 1])
    ensures var n := |slots| - 1;
            SyncEntries(chapters, slots[..n], outcomes[..n], now).Failure? ==>
              SyncEntries(chapters, slots, outcomes, now) == SyncEntries(chapters, slots[..n], outcomes[..n], now)
  {
  }

  /** Once the uploads of a prefix have failed, the rest changes nothing. */
  lemma {:induction false} SyncFailureFinal(chapters: seq<ChapterVideoData>, slots: seq<Slot>,
                                            outcomes: seq<Result<StreamVideo, string>>, k: nat, now: int)
    requires ValidSlots(chapters, slots) && |outcomes| == |slots| && k <= |slots|
    requires ValidSlots(chapters, slots[..k])
    requires SyncEntries(chapters, slots[..k], outcomes[..k], now).Failure?
    ensures SyncEntries(chapters, slots, outcomes, now) == SyncEntries(chapters, slots[..k], outcomes[..k], now)
    decreases |slots|
  {
    if k < |slots| {
      var n := |slots| - 1;
      assert slots[..n][..k] == slots[..k] && outcomes[..n][..k] == outcomes[..k];
      SyncPrefixFailed(chapters, slots, outcomes, now);
      SyncFailureFinal(chapters, slots[..n], outcomes[..n], k, now);
      assert SyncEntries(chapters, slots[..n], outcomes[..n], now) == SyncEntries(chapters, slots[..k], outcomes[..k], now);
    } else {
      assert slots[..k] == slots && outcomes[..k] == outcomes;
      assert SyncEntries(chapters, slots, outcomes, now) == SyncEntries(chapters, slots[..k], outcomes[..k], now);
    }
  }

  /** Every entry of a successful sync of the whole request has its own lesson id. */
  lemma SyncedIdsUnique(chapters: seq<ChapterVideoData>, outcomes: seq<Result<StreamVideo, string>>, now: int)
    requires ValidSlots(chapters, Slots(chapters)) && |outcomes| == |Slots(chapters)|
    requires SyncEntries(chapters, Slots(chapters), outcomes, now).Success?
    ensures var entries := SyncEntries(chapters, Slots(chapters), outcomes, now).value;
            forall g, h :: 0 <= g < h < |entries| ==> entries[g].id != entries[h].id
  {
    var slots := Slots(chapters);
    SlotsUpToShape(chapters, |chapters|);
    SyncEntriesAt(chapters, slots, outcomes, now);
    var entries := SyncEntries(chapters, slots, outcomes, now).value;
    forall g, h | 0 <= g < h < |entries| ensures entries[g].id != entries[h].id {
      assert Before(slots[g], slots[h]);
      if entries[g].id == entries[h].id {
        LessonIdInjective(slots[g].section, slots[g].lesson, slots[h].section, slots[h].lesson);
      }
    }
  }

  lemma SlotsValid(chapters: seq<ChapterVideoData>, s: nat)
    requires s <= |chapters|
    ensures ValidSlots(chapters, SlotsUpTo(chapters, s))
  {
    SlotsUpToShape(chapters, s);
  }

  /** Visiting lesson `l` of chapter `section` appends its position to those visited so far. */
  lemma ChapterSlotsSnoc(done: seq<Slot>, section: nat, l: nat)
    ensures done + ChapterSlots(section, l + 1) == (done + ChapterSlots(section, l)) + [Slot(section, l)]
  {
    assert ChapterSlots(section, l + 1) == ChapterSlots(section, l) + [Slot(section, l)];
  }

  /** Adding the first `l` lessons of a chapter to valid positions keeps them valid. */
  lemma ChapterVisitValid(chapters: seq<ChapterVideoData>, done: seq<Slot>, section: nat, l: nat)
    requires ValidSlots(chapters, done) && section < |chapters| && l <= |chapters[section].lessons|
    ensures ValidSlots(chapters, done + ChapterSlots(section, l))
  {
    var visited := done + ChapterSlots(section, l);
    forall g | 0 <= g < |visited| ensures ValidSlot(chapters, visited[g]) {
      if g >= |done| {
        assert visited[g] == Slot(section, g - |done|);
      }
    }
  }

  /** The sync of `slots` uploading through `upload`. */
  function SyncWith(courseId: string, courseName: string, chapters: seq<ChapterVideoData>, slots: seq<Slot>,
                    upload: VideoUploadOptions -> Result<StreamVideo, string>, now: int): Result<seq<CourseData>, string>
    requires ValidSlots(chapters, slots)
  {
    SyncEntries(chapters, slots, Uploaded(courseId, courseName, chapters, slots, upload), now)
  }

  /** One more position: its upload either extends the lesson list or ends the sync. */
  lemma SyncStep(courseId: string, courseName: string, chapters: seq<ChapterVideoData>, visited: seq<Slot>, p: Slot,
                 upload: VideoUploadOptions -> Result<StreamVideo, string>, now: int, entries: seq<CourseData>)
    requires ValidSlots(chapters, visited) && ValidSlot(chapters, p)
    requires SyncWith(courseId, courseName, chapters, visited, upload, now) == Success(entries)
    ensures ValidSlots(chapters, visited + [p])
    ensures var video := upload(SlotOptions(courseId, courseName, chapters, p));
            SyncWith(courseId, courseName, chapters, visited + [p], upload, now)
              == if video.Failure? then Failure(video.error)
                 else Success(entries + [SlotEntry(chapters, p, |entries|, video.value, now)])
  {
    UploadedSnoc(courseId, courseName, chapters, visited, p, upload);
    var outs := Uploaded(courseId, courseName, chapters, visited + [p], upload);
    assert (visited + [p])[..|visited|] == visited;
    assert outs[..|visited|] == Uploaded(courseId, courseName, chapters, visited, upload);
  }

  /** A failed upload decides the outcome of the sync of any longer list of positions. */
  lemma SyncWithFailureFinal(courseId: string, courseName: string, chapters: seq<ChapterVideoData>, slots: seq<Slot>,
                             k: nat, upload: VideoUploadOptions -> Result<StreamVideo, string>, now: int)
    requires ValidSlots(chapters, slots) && k <= |slots|
    requires ValidSlots(chapters, slots[..k])
    requires SyncWith(courseId, courseName, chapters, slots[..k], upload, now).Failure?
    ensures SyncWith(courseId, courseName, chapters, slots, upload, now)
            == SyncWith(courseId, courseName, chapters, slots[..k], upload, now)
  {
    UploadedPrefix(courseId, courseName, chapters, slots, k, upload);
    SyncFailureFinal(chapters, slots, Uploaded(courseId, courseName, chapters, slots, upload), k, now);
  }

  /** A failed upload in the middle of a chapter decides the outcome of the whole chapter. */
  lemma ChapterFailureFinal(courseId: string, courseName: string, chapters: seq<ChapterVideoData>, done: seq<Slot>,
                            section: nat, l: nat, upload: VideoUploadOptions -> Result<StreamVideo, string>, now: int)
    requires ValidSlots(chapters, done) && section < |chapters| && l < |chapters[section].lessons|
    requires ValidSlots(chapters, done + ChapterSlots(section, l + 1))
    requires SyncWith(courseId, courseName, chapters, done + ChapterSlots(section, l + 1), upload, now).Failure?
    ensures ValidSlots(chapters, done + ChapterSlots(section, |chapters[section].lessons|))
    ensures SyncWith(courseId, courseName, chapters, done + ChapterSlots(section, |chapters[section].lessons|), upload, now)
            == SyncWith(courseId, courseName, chapters, done + ChapterSlots(section, l + 1), upload, now)
  {
    var all := done + ChapterSlots(section, |chapters[section].lessons|);
    var visited := done + ChapterSlots(section, l + 1);
    ChapterVisitValid(chapters, done, section, |chapters[section].lessons|);
    assert visited == all[..|visited|];
    SyncWithFailureFinal(courseId, courseName, chapters, all, |visited|, upload, now);
  }

  /**
   * The inner loop of `uploadAndSyncCourseVideos`: uploads the lessons of chapter `section`
   * in order, appending one entry per upload to `entries`, the list built for the positions
   * `done` already visited; the first failed upload stops it with that upload's error.
   */
  method UploadChapterLessons(courseId: string, courseName: string, chapters: seq<ChapterVideoData>, section: nat,
                              upload: VideoUploadOptions -> Result<StreamVideo, string>, now: int,
                              ghost done: seq<Slot>, entries: seq<CourseData>)
    returns (r: Result<seq<CourseData>, string>)
    requires section < |chapters| && ValidSlots(chapters, done)
    requires SyncWith(courseId, courseName, chapters, done, upload, now) == Success(entries)
    ensures ValidSlots(chapters, done + ChapterSlots(section, |chapters[section].lessons|))
    ensures r == SyncWith(courseId, courseName, chapters, done + ChapterSlots(section, |chapters[section].lessons|),
                          upload, now)
  {
    var chapter := chapters[section];
    var updatedCourseData := entries;
    var lessonIdx := 0;
    assert done + ChapterSlots(section, lessonIdx) == done;
    while lessonIdx < |chapter.lessons|
      invariant 0 <= lessonIdx <= |chapter.lessons|
      invariant ValidSlots(chapters, done + ChapterSlots(section, lessonIdx))
      invariant SyncWith(courseId, courseName, chapters, done + ChapterSlots(section, lessonIdx), upload, now)
                  == Success(updatedCourseData)
    {
      var p := Slot(section, lessonIdx);
      ghost var before := done + ChapterSlots(section, lessonIdx);
      ChapterSlotsSnoc(done, section, lessonIdx);
      SyncStep(courseId, courseName, chapters, before, p, upload, now, updatedCourseData);
      var uploadResult := upload(SlotOptions(courseId, courseName, chapters, p));
      if uploadResult.Failure? {
        ChapterFailureFinal(courseId, courseName, chapters, done, section, lessonIdx, upload, now);
        return Failure(uploadResult.error);
      }
      var courseDataEntry := SlotEntry(chapters, p, |updatedCourseData|, uploadResult.value, now);
      updatedCourseData := updatedCourseData + [courseDataEntry];
      lessonIdx := lessonIdx + 1;
    }
    ChapterVisitValid(chapters, done, section, lessonIdx);
    return Success(updatedCourseData);
  }

  /**
   * The outer loop of `uploadAndSyncCourseVideos`: the chapters in order, each through
   * `UploadChapterLessons`, stopping at the first failed upload.
   */
  method UploadAllChapters(courseId: string, courseName: string, chapters: seq<ChapterVideoData>,
                           upload: VideoUploadOptions -> Result<StreamVideo, string>, now: int)
    returns (r: Result<seq<CourseData>, string>)
    ensures ValidSlots(chapters, Slots(chapters))
    ensures r == SyncWith(courseId, courseName, chapters, Slots(chapters), upload, now)
  {
    SlotsValid(chapters, |chapters|);
    var updatedCourseData: seq<CourseData> := [];
    var sectionIdx := 0;
    while sectionIdx < |chapters|
      invariant 0 <= sectionIdx <= |chapters|
      invariant ValidSlots(chapters, SlotsUpTo(chapters, sectionIdx))
      invariant SyncWith(courseId, courseName, chapters, SlotsUpTo(chapters, sectionIdx), upload, now) == Success(updatedCourseData)
    {
      var chapterResult := UploadChapterLessons(courseId, courseName, chapters, sectionIdx, upload, now,
                                                SlotsUpTo(chapters, sectionIdx), updatedCourseData);
      if chapterResult.Failure? {
        SlotsUpToPrefix(chapters, sectionIdx + 1, |chapters|);
        SlotsValid(chapters, sectionIdx + 1);
        SyncWithFailureFinal(courseId, courseName, chapters, Slots(chapters), |SlotsUpTo(chapters, sectionIdx + 1)|, upload, now);
        return chapterResult;
      }
      updatedCourseData := chapterResult.value;
      sectionIdx := sectionIdx + 1;
    }
    return Success(updatedCourseData);
  }

  /**
   * `uploadAndSyncCourseVideos`: uploads every lesson, chapter by chapter, and replaces
   * the course's lesson list with the entries built from the results. The first failed
   * upload is rethrown and the course is left as it was. Logging and the pause between
   * uploads are not modelled.
   */
  method UploadAndSyncCourseVideos(course: Course?, chapters: seq<ChapterVideoData>,
                                   upload: VideoUploadOptions -> Result<StreamVideo, string>, now: int)
    returns (r: Result<(), string>)
    modifies course
    ensures course == null ==> r == Failure(COURSE_NOT_FOUND)
    ensures course != null ==>
              && course.name == old(course.name) && course.status == old(course.status)
              && course.publishedAt == old(course.publishedAt) && course.teacher == old(course.teacher)
              && course.reviews == old(course.reviews)
              && ValidSlots(chapters, Slots(chapters))
    ensures course != null ==>
              var synced := SyncWith(course.id, old(course.name), chapters, Slots(chapters), upload, now);
              && (synced.Success? ==> r == Success(()) && course.courseData == synced.value)
              && (synced.Failure? ==> r == Failure(synced.error) && course.courseData == old(course.courseData))
  {
    if course == null {
      return Failure(COURSE_NOT_FOUND);
    }
    var synced := UploadAllChapters(course.id, course.name, chapters, upload, now);
    if synced.Failure? {
      return Failure(synced.error);
    }
    course.courseData := synced.value;
    return Success(());
  }

  // ---------------------------------------------------------------------------
  // addVideoToChapter

  /** The lessons of `data` whose `sectionIndex` is `chapter`, in order. */
  function ChapterMembers(data: seq<CourseData>, chapter: int): seq<CourseData>
  {
    if data == [] then []
    else
      var prev := ChapterMembers(data[..|data| - 1], chapter);
      var x := data[|data| - 1];
      if x.sectionIndex == Some(chapter) then prev + [x] else prev
  }

  /** The members of a chapter are lessons of the list that carry that chapter's index. */
  lemma {:induction false} ChapterMembersIn(data: seq<CourseData>, chapter: int)
    ensures |ChapterMembers(data, chapter)| <= |data|
    ensures forall x :: x in ChapterMembers(data, chapter) ==> x in data && x.sectionIndex == Some(chapter)
  {
    if data != [] {
      ChapterMembersIn(data[..|data| - 1], chapter);
    }
  }

  /** A lesson of the chapter, anywhere in the list, makes the chapter non-empty. */
  lemma {:induction false} ChapterMembersNonEmpty(data: seq<CourseData>, chapter: int, i: nat)
    requires i < |data| && data[i].sectionIndex == Some(chapter)
    ensures ChapterMembers(data, chapter) != []
    decreases |data|
  {
    if i < |data| - 1 {
      ChapterMembersNonEmpty(data[..|data| - 1], chapter, i);
    }
  }

  /** A chapter only gains lessons as the list grows. */
  lemma {:induction false} ChapterMembersGrow(data: seq<CourseData>, chapter: int, a: nat, b: nat)
    requires a <= b <= |data|
    ensures |ChapterMembers(data[..a], chapter)| <= |ChapterMembers(data[..b], chapter)|
    decreases b
  {
    if a < b {
      assert data[..b][..b - 1] == data[..b - 1];
      ChapterMembersGrow(data, chapter, a, b - 1);
    }
  }

  /** The options the single upload is sent with. */
  function ChapterUploadOptions(courseId: string, courseName: string, chapterIndex: int, chapterTitle: string,
                                next: nat, video: LessonVideo): VideoUploadOptions
  {
    VideoUploadOptions(courseId, courseName, ChapterId(chapterIndex), chapterTitle,
                       chapterIndex + 1, LessonId(chapterIndex, next), video.title, next + 1, video.videoFilePath,
                       Some(true))
  }

  /**
   * The lesson `addVideoToChapter` appends, or its error: the chapter must already hold a
   * lesson; the new one takes the chapter's title from its first lesson, the next lesson
   * number in the chapter and the next position in the course. When that first lesson has
   * no title, slugifying the title throws before anything is uploaded.
   */
  function AddedLesson(courseId: string, courseName: string, data: seq<CourseData>, chapterIndex: int,
                       video: LessonVideo, upload: VideoUploadOptions -> Result<StreamVideo, string>, now: int)
    : (r: Result<CourseData, string>)
    ensures ChapterMembers(data, chapterIndex) == [] ==> r == Failure(CHAPTER_NOT_FOUND)
    ensures ChapterMembers(data, chapterIndex) != [] && ChapterMembers(data, chapterIndex)[0].videoSection.None? ==>
              r == Failure(UNDEFINED_TITLE)
    ensures ChapterMembers(data, chapterIndex) != [] && ChapterMembers(data, chapterIndex)[0].videoSection.Some? ==>
              var members := ChapterMembers(data, chapterIndex);
              var uploaded := upload(ChapterUploadOptions(courseId, courseName, chapterIndex,
                                                          members[0].videoSection.value, |members|, video));
              && (r.Success? <==> uploaded.Success?)
              && (uploaded.Failure? ==> r.error == uploaded.error)
              && (uploaded.Success? ==> r.value.videoCfUid == Some(uploaded.value.uid))
    ensures r.Success? ==>
              var members := ChapterMembers(data, chapterIndex);
              && r.value.sectionIndex == Some(chapterIndex) && r.value.index == |data|
              && r.value.id == LessonId(chapterIndex, |members|)
              && r.value.videoSection.Some? && r.value.videoSection == members[0].videoSection
              && r.value.questions == []
  {
    var members := ChapterMembers(data, chapterIndex);
    if members == [] then Failure(CHAPTER_NOT_FOUND)
    else if members[0].videoSection.None? then Failure(UNDEFINED_TITLE)
    else
      var chapterTitle := members[0].videoSection.value;
      var next := |members|;
      var uploaded := upload(ChapterUploadOptions(courseId, courseName, chapterIndex, chapterTitle, next, video));
      if uploaded.Failure? then Failure(uploaded.error)
      else
        Success(CourseData(LessonId(chapterIndex, next), video.title, |data|, Some(chapterTitle), Some(chapterIndex),
                           video.description, Some(video.videoLength), Some(uploaded.value.uid),
                           Some(MapVideoStatus(uploaded.value.state)), video.links.GetOr([]), [], Some(now), Some(now)))
  }

  /**
   * `addVideoToChapter`: uploads one video into an existing chapter and appends its lesson
   * to the course. A missing course, an empty chapter or a failed upload changes nothing.
   */
  method AddVideoToChapter(course: Course?, chapterIndex: int, video: LessonVideo,
                           upload: VideoUploadOptions -> Result<StreamVideo, string>, now: int)
    returns (r: Result<(), string>)
    modifies course
    ensures course == null ==> r == Failure(COURSE_NOT_FOUND)
    ensures course != null ==>
              && course.name == old(course.name) && course.status == old(course.status)
              && course.publishedAt == old(course.publishedAt) && course.teacher == old(course.teacher)
              && course.reviews == old(course.reviews)
    ensures course != null ==>
              var added := AddedLesson(course.id, old(course.name), old(course.courseData), chapterIndex, video, upload, now);
              && (added.Success? ==> r == Success(()) && course.courseData == old(course.courseData) + [added.value])
              && (added.Failure? ==> r == Failure(added.error) && course.courseData == old(course.courseData))
  {
    if course == null {
      return Failure(COURSE_NOT_FOUND);
    }
    var newLesson := AddedLesson(course.id, course.name, course.courseData, chapterIndex, video, upload, now);
    if newLesson.Failure? {
      return Failure(newLesson.error);
    }
    course.courseData := course.courseData + [newLesson.value];
    return Success(());
  }

  /** The added lesson joins the end of its chapter; every other chapter is unchanged. */
  lemma AddedJoinsChapter(data: seq<CourseData>, entry: CourseData, chapter: int, other: int)
    requires entry.sectionIndex == Some(chapter) && other != chapter
    ensures ChapterMembers(data + [entry], chapter) == ChapterMembers(data, chapter) + [entry]
    ensures ChapterMembers(data + [entry], other) == ChapterMembers(data, other)
  {
    assert (data + [entry])[..|data|] == data;
  }

  /**
   * Each lesson's id names its chapter and its place in that chapter, counting the lessons
   * of the chapter before it, as both the full sync and `addVideoToChapter` number them.
   */
  predicate NumberedAfter(before: seq<CourseData>, x: CourseData) {
    && x.sectionIndex.Some? && x.sectionIndex.value >= 0
    && x.id == LessonId(x.sectionIndex.value, |ChapterMembers(before, x.sectionIndex.value)|)
  }

  predicate WellNumbered(data: seq<CourseData>) {
    forall i :: 0 <= i < |data| ==> NumberedAfter(data[..i], data[i])
  }

  /** In a well-numbered lesson list no two lessons share an id. */
  lemma WellNumberedIdsUnique(data: seq<CourseData>)
    requires WellNumbered(data)
    ensures forall i, j :: 0 <= i < j < |data| ==> data[i].id != data[j].id
  {
    forall i, j | 0 <= i < j < |data| ensures data[i].id != data[j].id {
      assert NumberedAfter(data[..i], data[i]) && NumberedAfter(data[..j], data[j]);
      if data[i].id == data[j].id {
        var s := data[i].sectionIndex.value;
        LessonIdInjective(s, |ChapterMembers(data[..i], s)|,
                          data[j].sectionIndex.value, |ChapterMembers(data[..j], data[j].sectionIndex.value)|);
        assert data[..i + 1][..i] == data[..i];
        assert |ChapterMembers(data[..i + 1], s)| == |ChapterMembers(data[..i], s)| + 1;
        ChapterMembersGrow(data, s, i + 1, j);
        assert false;
      }
    }
  }

  /** `addVideoToChapter` keeps a well-numbered lesson list well numbered. */
  lemma AddKeepsWellNumbered(courseId: string, courseName: string, data: seq<CourseData>, chapterIndex: int,
                             video: LessonVideo, upload: VideoUploadOptions -> Result<StreamVideo, string>, now: int)
    requires WellNumbered(data)
    requires AddedLesson(courseId, courseName, data, chapterIndex, video, upload, now).Success?
    ensures WellNumbered(data + [AddedLesson(courseId, courseName, data, chapterIndex, video, upload, now).value])
  {
    var entry := AddedLesson(courseId, courseName, data, chapterIndex, video, upload, now).value;
    var next := data + [entry];
    var first := ChapterMembers(data, chapterIndex)[0];
    ChapterMembersIn(data, chapterIndex);
    assert first in data;
    var k :| 0 <= k < |data| && data[k] == first;
    assert NumberedAfter(data[..k], data[k]);
    forall i | 0 <= i < |next| ensures NumberedAfter(next[..i], next[i]) {
      if i < |data| {
        assert next[..i] == data[..i];
        assert NumberedAfter(data[..i], data[i]);
      } else {
        assert next[..i] == data;
      }
    }
  }

  // ---------------------------------------------------------------------------
  // getCourseStructure

  /** The chapter a lesson is shown under: `lesson.sectionIndex || 0`. */
  function Key(x: CourseData): int {
    x.sectionIndex.GetOr(0)
  }

  /** The fields of a lesson the structure shows (the thumbnail is not modelled). */
  datatype LessonSummary = LessonSummary(
    id: string,
    title: string,
    index: int,
    description: string,
    videoLength: Option<int>,
    videoStatus: Option<VideoStatus>,
    links: seq<Link>)

  function Summary(x: CourseData): LessonSummary {
    LessonSummary(x.id, x.title, x.index, x.description, x.videoLength, x.videoStatus, x.links)
  }

  /** One chapter of the structure: the title of its first lesson, its key and its lessons. */
  datatype ChapterView = ChapterView(title: Option<string>, index: int, lessons: seq<LessonSummary>)

  datatype CourseStructure = CourseStructure(
    courseId: string,
    courseName: string,
    totalChapters: nat,
    totalLessons: nat,
    chapters: seq<ChapterView>)

  /** The lessons with key `k`, in course order. */
  function LessonsWithKey(data: seq<CourseData>, k: int): seq<LessonSummary> {
    if data == [] then []
    else
      var prev := LessonsWithKey(data[..|data| - 1], k);
      if Key(data[|data| - 1]) == k then prev + [Summary(data[|data| - 1])] else prev
  }

  /** The keys of the lessons in the order they first appear (a `Map`'s insertion order). */
  function FirstSeenKeys(data: seq<CourseData>): seq<int> {
    if data == [] then []
    else
      var prev := FirstSeenKeys(data[..|data| - 1]);
      var k := Key(data[|data| - 1]);
      if k in prev then prev else prev + [k]
  }

  /** The section title of the first lesson with key `k`. */
  function TitleOf(data: seq<CourseData>, k: int): Option<string> {
    if data == [] then None
    else
      var prev := data[..|data| - 1];
      if k in FirstSeenKeys(prev) then TitleOf(prev, k)
      else if Key(data[|data| - 1]) == k then data[|data| - 1].videoSection
      else None
  }

  function ChapterOf(data: seq<CourseData>, k: int): ChapterView {
    ChapterView(TitleOf(data, k), k, LessonsWithKey(data, k))
  }

  /** The chapters of the keys `ks`, in that order. */
  function GroupedBy(data: seq<CourseData>, ks: seq<int>): (r: seq<ChapterView>)
    ensures |r| == |ks| && forall j :: 0 <= j < |ks| ==> r[j] == ChapterOf(data, ks[j])
  {
    if ks == [] then [] else [ChapterOf(data, ks[0])] + GroupedBy(data, ks[1..])
  }

  /** Each key is seen once, and the keys seen are exactly those of the lessons. */
  lemma {:induction false} FirstSeenKeysSpec(data: seq<CourseData>)
    ensures forall a, b :: 0 <= a < b < |FirstSeenKeys(data)| ==> FirstSeenKeys(data)[a] != FirstSeenKeys(data)[b]
    ensures forall k :: k in FirstSeenKeys(data) <==> exists i :: 0 <= i < |data| && Key(data[i]) == k
  {
    if data != [] {
      var prev := data[..|data| - 1];
      FirstSeenKeysSpec(prev);
      forall k | k in FirstSeenKeys(data) ensures exists i :: 0 <= i < |data| && Key(data[i]) == k {
        if k in FirstSeenKeys(prev) {
          var i :| 0 <= i < |prev| && Key(prev[i]) == k;
          assert data[i] == prev[i];
        } else {
          assert Key(data[|data| - 1]) == k;
        }
      }
      forall k | exists i :: 0 <= i < |data| && Key(data[i]) == k ensures k in FirstSeenKeys(data) {
        var i :| 0 <= i < |data| && Key(data[i]) == k;
        if i < |prev| {
          assert Key(prev[i]) == k;
        }
      }
    }
  }

  /** A key no lesson has collects no lessons. */
  lemma {:induction false} UnseenKeyEmpty(data: seq<CourseData>, k: int)
    requires k !in FirstSeenKeys(data)
    ensures LessonsWithKey(data, k) == []
  {
    if data != [] {
      var prev := data[..|data| - 1];
      assert k !in FirstSeenKeys(prev);
      UnseenKeyEmpty(prev, k);
    }
  }

  /** One more lesson joins the chapter of its key and leaves the others as they were. */
  lemma ChapterOfSnoc(data: seq<CourseData>, x: CourseData, k: int)
    ensures var next := ChapterOf(data + [x], k);
            if Key(x) != k then next == ChapterOf(data, k)
            else if k in FirstSeenKeys(data) then next == ChapterOf(data, k).(lessons := ChapterOf(data, k).lessons + [Summary(x)])
            else next == ChapterView(x.videoSection, k, [Summary(x)])
  {
    assert (data + [x])[..|data|] == data;
    if Key(x) == k && k !in FirstSeenKeys(data) {
      UnseenKeyEmpty(data, k);
    }
  }

  /** `Array.prototype.sort` by chapter index, as an insertion sort. */
  function InsertByIndex(c: ChapterView, sorted: seq<ChapterView>): (r: seq<ChapterView>)
    ensures multiset(r) == multiset(sorted) + multiset{c}
  {
    if sorted == [] then [c]
    else if c.index <= sorted[0].index then [c] + sorted
    else
      assert sorted == [sorted[0]] + sorted[1..];
      [sorted[0]] + InsertByIndex(c, sorted[1..])
  }

  function SortByIndex(cs: seq<ChapterView>): (r: seq<ChapterView>)
    ensures multiset(r) == multiset(cs)
  {
    if cs == [] then []
    else
      assert cs == [cs[0]] + cs[1..];
      InsertByIndex(cs[0], SortByIndex(cs[1..]))
  }

  predicate StrictlyByIndex(cs: seq<ChapterView>) {
    forall a, b :: 0 <= a < b < |cs| ==> cs[a].index < cs[b].index
  }

  predicate DistinctIndexes(cs: seq<ChapterView>) {
    forall a, b :: 0 <= a < b < |cs| ==> cs[a].index != cs[b].index
  }

  lemma {:induction false} InsertKeepsOrder(c: ChapterView, sorted: seq<ChapterView>)
    requires StrictlyByIndex(sorted)
    requires forall y :: y in sorted ==> y.index != c.index
    ensures StrictlyByIndex(InsertByIndex(c, sorted))
  {
    if sorted != [] && c.index > sorted[0].index {
      var rest := sorted[1..];
      assert StrictlyByIndex(rest);
      InsertKeepsOrder(c, rest);
      InsertedAboveHead(c, sorted);
      ConsKeepsOrder(sorted[0], InsertByIndex(c, rest));
    }
  }

  /** Inserting a chapter above the head of an ordered list into its tail keeps everything above the head. */
  lemma InsertedAboveHead(c: ChapterView, sorted: seq<ChapterView>)
    requires StrictlyByIndex(sorted) && sorted != [] && c.index > sorted[0].index
    ensures forall y :: y in InsertByIndex(c, sorted[1..]) ==> sorted[0].index < y.index
  {
    var rest := sorted[1..];
    var r := InsertByIndex(c, rest);
    forall y | y in r ensures sorted[0].index < y.index {
      assert y in multiset(r);
      if y != c {
        assert y in multiset(rest);
        var i :| 0 <= i < |rest| && rest[i] == y;
        assert sorted[i + 1] == y;
      }
    }
  }

  /** A chapter placed before strictly ordered chapters of larger index keeps them strictly ordered. */
  lemma ConsKeepsOrder(x: ChapterView, cs: seq<ChapterView>)
    requires StrictlyByIndex(cs)
    requires forall y :: y in cs ==> x.index < y.index
    ensures StrictlyByIndex([x] + cs)
  {
    var r := [x] + cs;
    forall a, b | 0 <= a < b < |r| ensures r[a].index < r[b].index {
      assert r[b] == cs[b - 1];
      if a > 0 {
        assert r[a] == cs[a - 1];
      } else {
        assert cs[b - 1] in cs;
      }
    }
  }

  /** Sorting chapters with distinct indexes leaves them strictly increasing. */
  lemma {:induction false} SortByIndexSorted(cs: seq<ChapterView>)
    requires DistinctIndexes(cs)
    ensures StrictlyByIndex(SortByIndex(cs))
  {
    if cs != [] {
      var rest := cs[1..];
      assert DistinctIndexes(rest);
      SortByIndexSorted(rest);
      forall y | y in SortByIndex(rest) ensures y.index != cs[0].index {
        assert y in multiset(SortByIndex(rest));
        var i :| 0 <= i < |rest| && rest[i] == y;
        assert cs[i + 1] == y;
      }
      InsertKeepsOrder(cs[0], SortByIndex(rest));
    }
  }

  /** The number of lessons over a list of chapters. */
  function LessonTotal(cs: seq<ChapterView>): nat {
    if cs == [] then 0 else |cs[0].lessons| + LessonTotal(cs[1..])
  }

  lemma {:induction false} InsertKeepsTotal(c: ChapterView, sorted: seq<ChapterView>)
    ensures LessonTotal(InsertByIndex(c, sorted)) == |c.lessons| + LessonTotal(sorted)
  {
    if sorted != [] && c.index > sorted[0].index {
      InsertKeepsTotal(c, sorted[1..]);
      assert ([sorted[0]] + InsertByIndex(c, sorted[1..]))[1..] == InsertByIndex(c, sorted[1..]);
    } else if sorted != [] {
      assert ([c] + sorted)[1..] == sorted;
    }
  }

  lemma {:induction false} SortKeepsTotal(cs: seq<ChapterView>)
    ensures LessonTotal(SortByIndex(cs)) == LessonTotal(cs)
  {
    if cs != [] {
      SortKeepsTotal(cs[1..]);
      InsertKeepsTotal(cs[0], SortByIndex(cs[1..]));
    }
  }

  /** The number of lessons over the keys `ks`. */
  function KeyTotal(ks: seq<int>, data: seq<CourseData>): nat {
    if ks == [] then 0 else |LessonsWithKey(data, ks[0])| + KeyTotal(ks[1..], data)
  }

  lemma {:induction false} GroupedTotal(data: seq<CourseData>, ks: seq<int>)
    ensures LessonTotal(GroupedBy(data, ks)) == KeyTotal(ks, data)
  {
    if ks != [] {
      GroupedTotal(data, ks[1..]);
      assert GroupedBy(data, ks)[1..] == GroupedBy(data, ks[1..]);
    }
  }

  lemma {:induction false} KeyTotalAppend(ks: seq<int>, k: int, data: seq<CourseData>)
    ensures KeyTotal(ks + [k], data) == KeyTotal(ks, data) + |LessonsWithKey(data, k)|
  {
    if ks != [] {
      assert (ks + [k])[1..] == ks[1..] + [k];
      KeyTotalAppend(ks[1..], k, data);
    } else {
      assert [k][1..] == [];
    }
  }

  /** One more lesson adds one to the total over distinct keys that include its key. */
  lemma {:induction false} KeyTotalSnoc(ks: seq<int>, data: seq<CourseData>, x: CourseData)
    requires forall a, b :: 0 <= a < b < |ks| ==> ks[a] != ks[b]
    ensures KeyTotal(ks, data + [x]) == KeyTotal(ks, data) + if Key(x) in ks then 1 else 0
  {
    if ks != [] {
      assert (data + [x])[..|data|] == data;
      assert Key(x) in ks[1..] ==> Key(x) != ks[0] by {
        if Key(x) in ks[1..] {
          var i :| 0 <= i < |ks[1..]| && ks[1..][i] == Key(x);
          assert ks[i + 1] == Key(x);
        }
      }
      assert Key(x) in ks <==> Key(x) == ks[0] || Key(x) in ks[1..] by {
        assert ks == [ks[0]] + ks[1..];
      }
      KeyTotalSnoc(ks[1..], data, x);
    }
  }

  /** Over the keys seen, every lesson is counted once. */
  lemma {:induction false} KeyTotalIsLessonCount(data: seq<CourseData>)
    ensures KeyTotal(FirstSeenKeys(data), data) == |data|
  {
    if data != [] {
      var prev := data[..|data| - 1];
      var x := data[|data| - 1];
      assert data == prev + [x];
      KeyTotalIsLessonCount(prev);
      FirstSeenKeysSpec(prev);
      var ks := FirstSeenKeys(prev);
      KeyTotalSnoc(ks, prev, x);
      if Key(x) !in ks {
        KeyTotalAppend(ks, Key(x), data);
        UnseenKeyEmpty(prev, Key(x));
      }
    }
  }

  /**
   * The structure `getCourseStructure` returns: the lessons grouped by key, each group in
   * course order, the groups sorted by key.
   */
  function StructureOf(courseId: string, courseName: string, data: seq<CourseData>): CourseStructure {
    var keys := FirstSeenKeys(data);
    CourseStructure(courseId, courseName, |keys|, |data|, SortByIndex(GroupedBy(data, keys)))
  }

  /** Sorting keeps exactly the chapters it was given. */
  lemma SortByIndexMembers(cs: seq<ChapterView>)
    ensures forall c :: c in SortByIndex(cs) <==> c in cs
  {
    forall c ensures c in SortByIndex(cs) <==> c in cs {
      assert c in SortByIndex(cs) <==> c in multiset(SortByIndex(cs));
      assert c in cs <==> c in multiset(cs);
    }
  }

  /** The chapters come in strictly increasing order of index, one per key. */
  lemma StructureSorted(courseId: string, courseName: string, data: seq<CourseData>)
    ensures var st := StructureOf(courseId, courseName, data);
            StrictlyByIndex(st.chapters) && st.totalChapters == |st.chapters|
  {
    var keys := FirstSeenKeys(data);
    var grouped := GroupedBy(data, keys);
    FirstSeenKeysSpec(data);
    assert DistinctIndexes(grouped) by {
      forall a, b | 0 <= a < b < |grouped| ensures grouped[a].index != grouped[b].index {
        assert grouped[a].index == keys[a] && grouped[b].index == keys[b];
      }
    }
    SortByIndexSorted(grouped);
    assert |multiset(SortByIndex(grouped))| == |multiset(grouped)|;
  }

  /** The chapter indexes are exactly the keys of the course's lessons. */
  lemma StructureChapterIndexes(courseId: string, courseName: string, data: seq<CourseData>)
    ensures (set c | c in StructureOf(courseId, courseName, data).chapters :: c.index)
            == (set i | 0 <= i < |data| :: Key(data[i]))
  {
    var keys := FirstSeenKeys(data);
    var grouped := GroupedBy(data, keys);
    var chapters := SortByIndex(grouped);
    FirstSeenKeysSpec(data);
    SortByIndexMembers(grouped);
    var left := set c | c in chapters :: c.index;
    var right := set i | 0 <= i < |data| :: Key(data[i]);
    forall k | k in left ensures k in right {
      var c :| c in chapters && c.index == k;
      var j :| 0 <= j < |grouped| && grouped[j] == c;
      assert k in keys;
      var i :| 0 <= i < |data| && Key(data[i]) == k;
    }
    forall k | k in right ensures k in left {
      var i :| 0 <= i < |data| && Key(data[i]) == k;
      assert k in keys;
      var j :| 0 <= j < |keys| && keys[j] == k;
      assert grouped[j] in chapters;
    }
  }

  /** Each chapter holds exactly the lessons with its key, in course order. */
  lemma StructureChapterLessons(courseId: string, courseName: string, data: seq<CourseData>)
    ensures forall c :: c in StructureOf(courseId, courseName, data).chapters ==>
              c.lessons == LessonsWithKey(data, c.index)
  {
    var grouped := GroupedBy(data, FirstSeenKeys(data));
    SortByIndexMembers(grouped);
    forall c | c in SortByIndex(grouped) ensures c.lessons == LessonsWithKey(data, c.index) {
      var j :| 0 <= j < |grouped| && grouped[j] == c;
    }
  }

  /** Together the chapters hold as many lessons as the course. */
  lemma StructureCoversLessons(courseId: string, courseName: string, data: seq<CourseData>)
    ensures var st := StructureOf(courseId, courseName, data);
            LessonTotal(st.chapters) == st.totalLessons == |data|
  {
    var keys := FirstSeenKeys(data);
    SortKeepsTotal(GroupedBy(data, keys));
    GroupedTotal(data, keys);
    KeyTotalIsLessonCount(data);
  }

  /** The loop's map of chapters and the order their keys were inserted, after the lessons `data`. */
  ghost predicate Grouping(chapters: map<int, ChapterView>, order: seq<int>, data: seq<CourseData>) {
    && order == FirstSeenKeys(data)
    && (forall k :: k in chapters <==> k in order)
    && |chapters| == |order|
    && (forall k :: k in chapters ==> chapters[k] == ChapterOf(data, k))
  }

  /** One round of the grouping loop: create the lesson's chapter if new, then append the lesson. */
  lemma GroupStep(chapters: map<int, ChapterView>, order: seq<int>, data: seq<CourseData>, x: CourseData)
    requires Grouping(chapters, order, data)
    ensures var k := Key(x);
            var created := if k in chapters then chapters else chapters[k := ChapterView(x.videoSection, k, [])];
            var order' := if k in chapters then order else order + [k];
            Grouping(created[k := created[k].(lessons := created[k].lessons + [Summary(x)])], order', data + [x])
  {
    var k := Key(x);
    var created := if k in chapters then chapters else chapters[k := ChapterView(x.videoSection, k, [])];
    var next := created[k := created[k].(lessons := created[k].lessons + [Summary(x)])];
    assert (data + [x])[..|data|] == data;
    forall j | j in next ensures next[j] == ChapterOf(data + [x], j) {
      ChapterOfSnoc(data, x, j);
    }
  }

  /** `Array.from(chapters.values())`: the chapters in the order their keys were inserted. */
  function ValuesInOrder(chapters: map<int, ChapterView>, order: seq<int>): (r: seq<ChapterView>)
    requires forall j :: 0 <= j < |order| ==> order[j] in chapters
    ensures |r| == |order| && forall j :: 0 <= j < |order| ==> r[j] == chapters[order[j]]
  {
    if order == [] then []
    else
      assert forall j :: 0 <= j < |order| - 1 ==> order[1..][j] == order[j + 1];
      [chapters[order[0]]] + ValuesInOrder(chapters, order[1..])
  }

  lemma GroupingValues(chapters: map<int, ChapterView>, order: seq<int>, data: seq<CourseData>)
    requires Grouping(chapters, order, data)
    ensures forall j :: 0 <= j < |order| ==> order[j] in chapters
    ensures ValuesInOrder(chapters, order) == GroupedBy(data, order)
  {
    forall j | 0 <= j < |order| ensures order[j] in chapters && chapters[order[j]] == ChapterOf(data, order[j]) {
      var k := order[j];
      assert k in order;
      assert k in chapters;
      assert chapters[k] == ChapterOf(data, k);
    }
  }

  /**
   * `getCourseStructure`: groups the course's lessons by chapter key in one pass, in a map
   * that remembers the order keys were first seen, then sorts the chapters by index.
   */
  method GetCourseStructure(course: Course?) returns (r: Result<CourseStructure, string>)
    ensures course == null ==> r == Failure(COURSE_NOT_FOUND)
    ensures course != null ==> r == Success(StructureOf(course.id, course.name, course.courseData))
  {
    if course == null {
      return Failure(COURSE_NOT_FOUND);
    }
    var data := course.courseData;
    var chapters: map<int, ChapterView> := map[];
    var order: seq<int> := [];
    var i := 0;
    while i < |data|
      invariant 0 <= i <= |data|
      invariant Grouping(chapters, order, data[..i])
    {
      var lesson := data[i];
      var sectionIdx := Key(lesson);
      assert data[..i + 1] == data[..i] + [lesson];
      GroupStep(chapters, order, data[..i], lesson);
      if sectionIdx !in chapters {
        chapters := chapters[sectionIdx := ChapterView(lesson.videoSection, sectionIdx, [])];
        order := order + [sectionIdx];
      }
      var chapter := chapters[sectionIdx];
      chapters := chapters[sectionIdx := chapter.(lessons := chapter.lessons + [Summary(lesson)])];
      i := i + 1;
    }
    assert data[..i] == data;
    GroupingValues(chapters, order, data);
    var values := ValuesInOrder(chapters, order);
    return Success(CourseStructure(course.id, course.name, |chapters|, |data|, SortByIndex(values)));
  }
}
