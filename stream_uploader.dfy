/**
 * The Cloudflare Stream uploader (src/utils/cloudflare-stream-uploader.ts): slugs, the
 * virtual-folder metadata attached to each upload, the choice between the basic and the
 * resumable upload, the bounded status polling, the per-course statistics and the
 * batch upload of a course. The Stream API itself is a set of function parameters: each
 * stands for one HTTP call and gives its result or its error.
 */
module StreamUploader {
  import opened Wrappers
  import opened JsStrings

  // ---------------------------------------------------------------------------
  // slugify

  /** `\w`: ASCII letters, digits and '_'. */
  predicate IsWordChar(c: char) { 'a' <= c <= 'z' || 'A' <= c <= 'Z' || '0' <= c <= '9' || c == '_' }

  /** The characters `[^\w\s-]` does not remove. */
  predicate IsSlugKept(c: char) { IsWordChar(c) || IsSpace(c) || c == '-' }

  /** The class `[\s_-]`. */
  predicate IsSlugSeparator(c: char) { IsSpace(c) || c == '_' || c == '-' }

  predicate IsDash(c: char) { c == '-' }

  /** The characters a slug is made of: `[a-z0-9-]`. */
  predicate IsSlugChar(c: char) { 'a' <= c <= 'z' || '0' <= c <= '9' || c == '-' }

  /** A well-formed slug: slug characters, no '-' at either end, no "--". */
  predicate IsSlug(s: string) {
    && (forall k :: 0 <= k < |s| ==> IsSlugChar(s[k]))
    && (s == [] || (s[0] != '-' && s[|s| - 1] != '-'))
    && (forall k :: 0 <= k < |s| - 1 && s[k] == '-' ==> s[k + 1] != '-')
  }

  /** The index of the first character at or after `i` that is not '-'. */
  function SkipDashes(s: string, i: nat): (j: nat)
    requires i <= |s|
    ensures i <= j <= |s|
    ensures forall k :: i <= k < j ==> s[k] == '-'
    ensures j == |s| || s[j] != '-'
    decreases |s| - i
  {
    if i < |s| && s[i] == '-' then SkipDashes(s, i + 1) else i
  }

  /** The end of `s[lo..j]` once the run of '-' before `j` is dropped. */
  function SkipDashesBack(s: string, lo: nat, j: nat): (e: nat)
    requires lo <= j <= |s|
    ensures lo <= e <= j
    ensures forall k :: e <= k < j ==> s[k] == '-'
    ensures e == lo || s[e - 1] != '-'
    decreases j
  {
    if lo < j && s[j - 1] == '-' then SkipDashesBack(s, lo, j - 1) else j
  }

  /** `s.replace(/^-+|-+$/g, '')`: `s` without its leading and trailing runs of '-'. */
  function StripDashes(s: string): string {
    var i := SkipDashes(s, 0);
    s[i..SkipDashesBack(s, i, |s|)]
  }

  /**
   * `slugify`: lower case, trim, drop every character outside `[\w\s-]`, turn each run of
   * `[\s_-]` into one '-', and strip '-' from both ends.
   */
  function Slugify(text: string): (r: string)
    ensures IsSlug(r)
  {
    var kept := KeepOnly(Trim(ToLower(text)), IsSlugKept);
    var body := ReplaceRuns(kept, IsSlugSeparator, '-');
    KeptIsSlugOrSeparator(text, kept);
    SlugBodyShape(kept, body);
    StripDashesIsSlug(body);
    StripDashes(body)
  }

  /** Every character of the lower-cased text is a non-upper-case one. */
  lemma {:induction false} KeepOnlyKeepsLower(s: string, p: char -> bool)
    requires forall k :: 0 <= k < |s| ==> !IsUpperAscii(s[k])
    ensures forall k :: 0 <= k < |KeepOnly(s, p)| ==> !IsUpperAscii(KeepOnly(s, p)[k])
  {
    if s != [] {
      KeepOnlyKeepsLower(s[1..], p);
    }
  }

  /** Trimming keeps a string free of upper-case letters. */
  lemma TrimKeepsLower(s: string)
    requires forall k :: 0 <= k < |s| ==> !IsUpperAscii(s[k])
    ensures forall k :: 0 <= k < |Trim(s)| ==> !IsUpperAscii(Trim(s)[k])
  {
    var t := TrimStart(s);
    var r := TrimEnd(t);
    assert t == s[|s| - |t|..];
    assert r == t[..|r|];
    forall k | 0 <= k < |r| ensures !IsUpperAscii(r[k]) {
      assert r[k] == s[|s| - |t| + k];
    }
  }

  lemma LowerTrimmed(text: string)
    ensures forall k :: 0 <= k < |Trim(ToLower(text))| ==> !IsUpperAscii(Trim(ToLower(text))[k])
  {
    var lowered := ToLower(text);
    forall k | 0 <= k < |lowered| ensures !IsUpperAscii(lowered[k]) {
      assert lowered[k] == LowerChar(text[k]);
    }
    TrimKeepsLower(lowered);
  }

  /** After lower-casing and filtering, every character is a slug character or a separator. */
  lemma KeptIsSlugOrSeparator(text: string, kept: string)
    requires kept == KeepOnly(Trim(ToLower(text)), IsSlugKept)
    ensures forall k :: 0 <= k < |kept| ==> IsSlugChar(kept[k]) || IsSlugSeparator(kept[k])
  {
    LowerTrimmed(text);
    KeepOnlyKeepsLower(Trim(ToLower(text)), IsSlugKept);
    forall k | 0 <= k < |kept| ensures IsSlugChar(kept[k]) || IsSlugSeparator(kept[k]) {
      assert IsSlugKept(kept[k]) && !IsUpperAscii(kept[k]);
    }
  }

  /** Replacing the separator runs of such text leaves slug characters and never "--". */
  lemma {:induction false} SlugBodyShape(kept: string, body: string)
    requires forall k :: 0 <= k < |kept| ==> IsSlugChar(kept[k]) || IsSlugSeparator(kept[k])
    requires body == ReplaceRuns(kept, IsSlugSeparator, '-')
    ensures forall k :: 0 <= k < |body| ==> IsSlugChar(body[k])
    ensures forall k :: 0 <= k < |body| - 1 && body[k] == '-' ==> body[k + 1] != '-'
    decreases |kept|
  {
    if kept != [] {
      if IsSlugSeparator(kept[0]) {
        var rest := DropRun(kept[1..], IsSlugSeparator);
        var tail := ReplaceRuns(rest, IsSlugSeparator, '-');
        assert rest == kept[1..][|kept| - 1 - |rest|..];
        SlugBodyShape(rest, tail);
        assert body == ['-'] + tail;
        if rest != [] {
          assert tail[0] == rest[0];
        }
      } else {
        var tail := ReplaceRuns(kept[1..], IsSlugSeparator, '-');
        SlugBodyShape(kept[1..], tail);
        assert body == [kept[0]] + tail;
      }
    }
  }

  /** Stripping the dashes at both ends of a slug body leaves a slug. */
  lemma StripDashesIsSlug(body: string)
    requires forall k :: 0 <= k < |body| ==> IsSlugChar(body[k])
    requires forall k :: 0 <= k < |body| - 1 && body[k] == '-' ==> body[k + 1] != '-'
    ensures IsSlug(StripDashes(body))
  {
    var i := SkipDashes(body, 0);
    var j := SkipDashesBack(body, i, |body|);
    var r := body[i..j];
    assert StripDashes(body) == r;
    forall k | 0 <= k < |r| ensures IsSlugChar(r[k]) {
      assert r[k] == body[i + k];
    }
    forall k | 0 <= k < |r| - 1 && r[k] == '-' ensures r[k + 1] != '-' {
      assert r[k] == body[i + k] && r[k + 1] == body[i + k + 1];
    }
    if r != [] {
      assert r[0] == body[i] && r[|r| - 1] == body[j - 1];
    }
  }

  /** A slug is its own slug, so `slugify` is idempotent. */
  lemma SlugifyOfSlug(s: string)
    requires IsSlug(s)
    ensures Slugify(s) == s
  {
    assert ToLower(s) == s;
    TrimOfNoSpace(s);
    assert KeepOnly(s, IsSlugKept) == s;
    ReplaceRunsOfSingles(s, IsSlugSeparator, '-');
    assert SkipDashes(s, 0) == 0;
    assert SkipDashesBack(s, 0, |s|) == |s|;
  }

  lemma SlugifyIdempotent(text: string)
    ensures Slugify(Slugify(text)) == Slugify(text)
  {
    SlugifyOfSlug(Slugify(text));
  }

  // ---------------------------------------------------------------------------
  // uploadVideoWithFolders: folder path, metadata and upload path

  /** `VideoUploadOptions`; `requireSignedURLs` defaults to true. */
  datatype VideoUploadOptions = VideoUploadOptions(
    courseId: string,
    courseTitle: string,
    chapterId: string,
    chapterTitle: string,
    chapterIndex: int,
    lessonId: string,
    lessonTitle: string,
    lessonIndex: int,
    videoFilePath: string,
    requireSignedURLs: Option<bool>)

  /** The metadata object sent with an upload; numbers are sent as their decimal strings. */
  datatype VideoMetadata = VideoMetadata(
    name: string,
    courseId: string,
    courseTitle: string,
    courseTitleSlug: string,
    chapterId: string,
    chapterTitle: string,
    chapterIndex: string,
    chapterSlug: string,
    lessonId: string,
    lessonTitle: string,
    lessonIndex: string,
    lessonSlug: string,
    folderPath: string,
    uploadedAt: string,
    category: string,
    fileName: string,
    fileSize: string)

  /** The part of a Stream video record (`CloudflareStreamVideo`) the core reads. */
  datatype StreamVideo = StreamVideo(
    uid: string,
    state: Option<string>,
    errorReasonText: Option<string>,
    duration: Option<int>,
    size: Option<int>,
    metaCourseId: Option<string>)

  const CATEGORY: string := "course-content"

  /** The virtual folder of a lesson: course title, then chapter index and title. */
  function FolderPath(o: VideoUploadOptions): string {
    o.courseTitle + "/Chapter-" + IntToString(o.chapterIndex) + "-" + o.chapterTitle
  }

  predicate IsSlash(c: char) { c == '/' }

  /** `path.basename` on a POSIX path: the last non-empty segment. */
  function Basename(path: string): (r: string)
    ensures '/' !in r
  {
    var trimmed := DropRunEnd(path, IsSlash);
    LastSegment(trimmed)
  }

  function LastSegment(s: string): (r: string)
    ensures '/' !in r
    ensures |r| <= |s|
    ensures r == s[|s| - |r|..]
  {
    if s == [] then []
    else if s[|s| - 1] == '/' then []
    else LastSegment(s[..|s| - 1]) + [s[|s| - 1]]
  }

  function MetadataFor(o: VideoUploadOptions, fileSize: nat, uploadedAt: string): VideoMetadata {
    var folderPath := FolderPath(o);
    VideoMetadata(folderPath + "/" + o.lessonTitle, o.courseId, o.courseTitle, Slugify(o.courseTitle),
                  o.chapterId, o.chapterTitle, IntToString(o.chapterIndex), Slugify(o.chapterTitle),
                  o.lessonId, o.lessonTitle, IntToString(o.lessonIndex), Slugify(o.lessonTitle),
                  folderPath, uploadedAt, CATEGORY, Basename(o.videoFilePath), NatToString(fileSize))
  }

  /**
   * The metadata names the lesson inside its chapter's folder, under the course title,
   * and carries well-formed slugs of the three titles.
   */
  lemma MetadataNamesAndSlugs(o: VideoUploadOptions, fileSize: nat, uploadedAt: string)
    ensures var m := MetadataFor(o, fileSize, uploadedAt);
            && m.folderPath == FolderPath(o)
            && m.name == m.folderPath + "/" + o.lessonTitle
            && |o.courseTitle| + 9 <= |m.folderPath|
            && m.folderPath[..|o.courseTitle| + 9] == o.courseTitle + "/Chapter-"
            && IsSlug(m.courseTitleSlug) && IsSlug(m.chapterSlug) && IsSlug(m.lessonSlug)
  {
    var prefix := o.courseTitle + "/Chapter-";
    var rest := IntToString(o.chapterIndex) + "-" + o.chapterTitle;
    assert FolderPath(o) == prefix + rest;
    assert (prefix + rest)[..|prefix|] == prefix;
  }

  /** The number fields of the metadata read back as the numbers they were made from. */
  lemma MetadataNumbersReadBack(o: VideoUploadOptions, fileSize: nat, uploadedAt: string)
    ensures var m := MetadataFor(o, fileSize, uploadedAt);
            && ParseInt(m.chapterIndex) == Some(o.chapterIndex)
            && ParseInt(m.lessonIndex) == Some(o.lessonIndex)
            && ParseInt(m.fileSize) == Some(fileSize)
  {
    ParseIntOfIntToString(o.chapterIndex);
    ParseIntOfIntToString(o.lessonIndex);
    ParseIntOfIntToString(fileSize);
  }

  /** Files above 200 MiB are sent with the resumable (tus) protocol. */
  const LARGE_UPLOAD_THRESHOLD: int := 200 * 1024 * 1024

  datatype UploadPath = Basic | Resumable

  function ChooseUploadPath(size: nat): (p: UploadPath)
    ensures p == Resumable <==> size > LARGE_UPLOAD_THRESHOLD
  {
    if size > LARGE_UPLOAD_THRESHOLD then Resumable else Basic
  }

  /**
   * The Stream API calls: the basic form upload, the creation of a resumable upload
   * session, the transfer of the file to a session (an error message, or none), and the
   * `attempt`-th reading of a video's details. A `createSession` failure stands for a reply
   * with `success: false`, its error being the serialised `errors` list; a request the HTTP
   * client rejects outright is not one of its outcomes.
   */
  datatype StreamApi = StreamApi(
    basicUpload: (VideoMetadata, bool) -> Result<StreamVideo, string>,
    createSession: (VideoMetadata, bool) -> Result<StreamVideo, string>,
    transfer: string -> Option<string>,
    videoDetails: (string, nat) -> Result<StreamVideo, string>)

  const DEFAULT_MAX_POLL_ATTEMPTS: int := 60
  const PROCESSING_TIMEOUT: string := "Video processing timeout"

  function ProcessingFailed(video: StreamVideo): string {
    "Video processing failed: "
      + (if video.errorReasonText.Some? && video.errorReasonText.value != "" then video.errorReasonText.value
         else "Unknown error")
  }

  /** The outcome of polling from attempt `i` on: first 'ready' or 'error' wins; a failed read propagates. */
  function PollFrom(details: (string, nat) -> Result<StreamVideo, string>, videoUid: string, i: nat,
                    maxAttempts: int): Result<StreamVideo, string>
    decreases maxAttempts - i
  {
    if i >= maxAttempts then Failure(PROCESSING_TIMEOUT)
    else
      var read := details(videoUid, i);
      if read.Failure? then Failure(read.error)
      else if read.value.state == Some("ready") then Success(read.value)
      else if read.value.state == Some("error") then Failure(ProcessingFailed(read.value))
      else PollFrom(details, videoUid, i + 1, maxAttempts)
  }

  /** A poll that went on past attempt `i` saw neither 'ready' nor 'error' there. */
  predicate StillProcessing(details: (string, nat) -> Result<StreamVideo, string>, videoUid: string, i: nat) {
    details(videoUid, i).Success?
    && details(videoUid, i).value.state != Some("ready")
    && details(videoUid, i).value.state != Some("error")
  }

  /**
   * Polling succeeds only with a 'ready' video read at some attempt below `maxAttempts`,
   * every earlier read still processing; it times out only when all `maxAttempts` reads
   * were still processing.
   */
  lemma {:induction false} PollFromOutcome(details: (string, nat) -> Result<StreamVideo, string>, videoUid: string,
                                           i: nat, maxAttempts: int)
    ensures var r := PollFrom(details, videoUid, i, maxAttempts);
            && (r.Success? ==>
                  exists n :: i <= n < maxAttempts && details(videoUid, n) == Success(r.value)
                              && r.value.state == Some("ready")
                              && forall m :: i <= m < n ==> StillProcessing(details, videoUid, m))
            && (r == Failure(PROCESSING_TIMEOUT) && (forall m: nat :: i <= m < maxAttempts ==> details(videoUid, m).Success?) ==>
                  forall m :: i <= m < maxAttempts ==> StillProcessing(details, videoUid, m))
    decreases maxAttempts - i
  {
    if i < maxAttempts {
      PollFromOutcome(details, videoUid, i + 1, maxAttempts);
    }
  }

  /** Polling reads only attempts below `maxAttempts`: later answers cannot change it. */
  lemma {:induction false} PollReadsOnlyAllowedAttempts(d1: (string, nat) -> Result<StreamVideo, string>,
                                                        d2: (string, nat) -> Result<StreamVideo, string>,
                                                        videoUid: string, i: nat, maxAttempts: int)
    requires forall m: nat :: i <= m < maxAttempts ==> d1(videoUid, m) == d2(videoUid, m)
    ensures PollFrom(d1, videoUid, i, maxAttempts) == PollFrom(d2, videoUid, i, maxAttempts)
    decreases maxAttempts - i
  {
    if i < maxAttempts {
      PollReadsOnlyAllowedAttempts(d1, d2, videoUid, i + 1, maxAttempts);
    }
  }

  /** `waitForVideoReady(videoUid, maxAttempts)`; the delay between reads is not modelled. */
  method WaitForVideoReady(details: (string, nat) -> Result<StreamVideo, string>, videoUid: string, maxAttempts: int)
    returns (r: Result<StreamVideo, string>)
    ensures r == PollFrom(details, videoUid, 0, maxAttempts)
  {
    var i: nat := 0;
    while i < maxAttempts
      invariant PollFrom(details, videoUid, 0, maxAttempts) == PollFrom(details, videoUid, i, maxAttempts)
      decreases maxAttempts - i
    {
      var video := details(videoUid, i);
      if video.Failure? {
        return Failure(video.error);
      }
      if video.value.state == Some("ready") {
        return Success(video.value);
      } else if video.value.state == Some("error") {
        return Failure(ProcessingFailed(video.value));
      }
      i := i + 1;
    }
    return Failure(PROCESSING_TIMEOUT);
  }

  function SessionFailed(error: string): string { "Failed to create upload session: " + error }

  /** `uploadLargeVideo`: create a session, send the file, then poll until the video is ready. */
  method UploadLargeVideo(api: StreamApi, metadata: VideoMetadata, requireSignedURLs: bool)
    returns (r: Result<StreamVideo, string>)
    ensures api.createSession(metadata, requireSignedURLs).Failure? ==>
              r == Failure(SessionFailed(api.createSession(metadata, requireSignedURLs).error))
    ensures api.createSession(metadata, requireSignedURLs).Success? ==>
              var uid := api.createSession(metadata, requireSignedURLs).value.uid;
              r == if api.transfer(uid).Some? then Failure(api.transfer(uid).value)
                   else PollFrom(api.videoDetails, uid, 0, DEFAULT_MAX_POLL_ATTEMPTS)
  {
    var session := api.createSession(metadata, requireSignedURLs);
    if session.Failure? {
      return Failure(SessionFailed(session.error));
    }
    var videoUid := session.value.uid;
    var sent := api.transfer(videoUid);
    if sent.Some? {
      return Failure(sent.value);
    }
    r := WaitForVideoReady(api.videoDetails, videoUid, DEFAULT_MAX_POLL_ATTEMPTS);
  }

  function FileNotFound(path: string): string { "Video file not found: " + path }

  /**
   * `uploadVideoWithFolders`. `fileSize` is the size of the file at `videoFilePath`, or
   * `None` when there is no such file; `uploadedAt` is the current time in ISO form.
   */
  method UploadVideoWithFolders(api: StreamApi, o: VideoUploadOptions, fileSize: Option<nat>, uploadedAt: string)
    returns (r: Result<StreamVideo, string>)
    ensures fileSize.None? ==> r == Failure(FileNotFound(o.videoFilePath))
    ensures fileSize.Some? && ChooseUploadPath(fileSize.value) == Basic ==>
              r == api.basicUpload(MetadataFor(o, fileSize.value, uploadedAt), o.requireSignedURLs.GetOr(true))
    ensures fileSize.Some? && ChooseUploadPath(fileSize.value) == Resumable ==>
              var session := api.createSession(MetadataFor(o, fileSize.value, uploadedAt), o.requireSignedURLs.GetOr(true));
              && (session.Failure? ==> r == Failure(SessionFailed(session.error)))
              && (session.Success? ==>
                    r == if api.transfer(session.value.uid).Some? then Failure(api.transfer(session.value.uid).value)
                         else PollFrom(api.videoDetails, session.value.uid, 0, DEFAULT_MAX_POLL_ATTEMPTS))
  {
    if fileSize.None? {
      return Failure(FileNotFound(o.videoFilePath));
    }
    var metadata := MetadataFor(o, fileSize.value, uploadedAt);
    var requireSignedURLs := o.requireSignedURLs.GetOr(true);
    if fileSize.value > LARGE_UPLOAD_THRESHOLD {
      r := UploadLargeVideo(api, metadata, requireSignedURLs);
    } else {
      r := api.basicUpload(metadata, requireSignedURLs);
    }
  }

  // ---------------------------------------------------------------------------
  // getCourseStatistics

  datatype CourseStatistics = CourseStatistics(
    totalVideos: nat,
    totalDuration: int,
    readyVideos: nat,
    processingVideos: nat,
    failedVideos: nat,
    totalSize: int)

  predicate IsProcessingState(state: Option<string>) { state == Some("queued") || state == Some("inprogress") }

  /** `listCourseVideos` over the listed videos: those whose metadata names the course. */
  function CourseVideos(videos: seq<StreamVideo>, courseId: string): (r: seq<StreamVideo>)
    ensures |r| <= |videos|
    ensures forall v :: v in r <==> v in videos && v.metaCourseId == Some(courseId)
  {
    if videos == [] then []
    else
      var rest := CourseVideos(videos[..|videos| - 1], courseId);
      var last := videos[|videos| - 1];
      assert videos == videos[..|videos| - 1] + [last];
      if last.metaCourseId == Some(courseId) then rest + [last] else rest
  }

  /** Number of videos whose state satisfies `p`. */
  function CountState(videos: seq<StreamVideo>, p: Option<string> -> bool): (n: nat)
    ensures n <= |videos|
  {
    if videos == [] then 0
    else CountState(videos[..|videos| - 1], p) + (if p(videos[|videos| - 1].state) then 1 else 0)
  }

  function SumSizes(videos: seq<StreamVideo>): int {
    if videos == [] then 0 else SumSizes(videos[..|videos| - 1]) + videos[|videos| - 1].size.GetOr(0)
  }

  function SumDurations(videos: seq<StreamVideo>): int {
    if videos == [] then 0 else SumDurations(videos[..|videos| - 1]) + videos[|videos| - 1].duration.GetOr(0)
  }

  predicate IsReadyState(state: Option<string>) { state == Some("ready") }
  predicate IsErrorState(state: Option<string>) { state == Some("error") }
  predicate IsOtherState(state: Option<string>) {
    !IsReadyState(state) && !IsProcessingState(state) && !IsErrorState(state)
  }

  /**
   * The three tallies and the videos in no tally make up all videos: the tallies never
   * exceed the count, and they reach it exactly when every state is a known one.
   */
  lemma {:induction false} StateTalliesPartition(videos: seq<StreamVideo>)
    ensures CountState(videos, IsReadyState) + CountState(videos, IsProcessingState)
            + CountState(videos, IsErrorState) + CountState(videos, IsOtherState) == |videos|
  {
    if videos != [] {
      StateTalliesPartition(videos[..|videos| - 1]);
    }
  }

  /** A state falls in at most one of the ready, processing and failed tallies. */
  lemma StateTalliesDisjoint(state: Option<string>)
    ensures IsReadyState(state) ==> !IsProcessingState(state) && !IsErrorState(state)
    ensures IsProcessingState(state) ==> !IsErrorState(state)
  {
    assert "ready"[0] != "queued"[0] && "ready"[0] != "inprogress"[0] && "ready"[0] != "error"[0];
    assert "error"[0] != "queued"[0] && "error"[0] != "inprogress"[0];
  }

  /** Extending the prefix by one video adds that video's part to each tally and sum. */
  lemma TalliesStep(videos: seq<StreamVideo>, i: nat)
    requires i < |videos|
    ensures CountState(videos[..i + 1], IsReadyState)
            == CountState(videos[..i], IsReadyState) + (if IsReadyState(videos[i].state) then 1 else 0)
    ensures CountState(videos[..i + 1], IsProcessingState)
            == CountState(videos[..i], IsProcessingState) + (if IsProcessingState(videos[i].state) then 1 else 0)
    ensures CountState(videos[..i + 1], IsErrorState)
            == CountState(videos[..i], IsErrorState) + (if IsErrorState(videos[i].state) then 1 else 0)
    ensures SumSizes(videos[..i + 1]) == SumSizes(videos[..i]) + videos[i].size.GetOr(0)
    ensures SumDurations(videos[..i + 1]) == SumDurations(videos[..i]) + videos[i].duration.GetOr(0)
  {
    assert videos[..i + 1][..i] == videos[..i];
  }

  /** `getCourseStatistics` over the videos the account lists. */
  method GetCourseStatistics(allVideos: seq<StreamVideo>, courseId: string) returns (stats: CourseStatistics)
    ensures var videos := CourseVideos(allVideos, courseId);
            && stats.totalVideos == |videos|
            && stats.readyVideos == CountState(videos, IsReadyState)
            && stats.processingVideos == CountState(videos, IsProcessingState)
            && stats.failedVideos == CountState(videos, IsErrorState)
            && stats.totalSize == SumSizes(videos)
            && stats.totalDuration == SumDurations(videos)
            && stats.readyVideos + stats.processingVideos + stats.failedVideos <= stats.totalVideos
  {
    var videos := CourseVideos(allVideos, courseId);
    stats := CourseStatistics(|videos|, 0, 0, 0, 0, 0);
    var i := 0;
    while i < |videos|
      invariant 0 <= i <= |videos|
      invariant stats.totalVideos == |videos|
      invariant stats.readyVideos == CountState(videos[..i], IsReadyState)
      invariant stats.processingVideos == CountState(videos[..i], IsProcessingState)
      invariant stats.failedVideos == CountState(videos[..i], IsErrorState)
      invariant stats.totalSize == SumSizes(videos[..i])
      invariant stats.totalDuration == SumDurations(videos[..i])
    {
      var video := videos[i];
      TalliesStep(videos, i);
      StateTalliesDisjoint(video.state);
      if video.duration.Some? && video.duration.value != 0 {
        stats := stats.(totalDuration := stats.totalDuration + video.duration.value);
      }
      if video.size.Some? && video.size.value != 0 {
        stats := stats.(totalSize := stats.totalSize + video.size.value);
      }
      if video.state == Some("ready") {
        stats := stats.(readyVideos := stats.readyVideos + 1);
      } else if video.state == Some("queued") || video.state == Some("inprogress") {
        stats := stats.(processingVideos := stats.processingVideos + 1);
      } else if video.state == Some("error") {
        stats := stats.(failedVideos := stats.failedVideos + 1);
      }
      i := i + 1;
    }
    assert videos[..i] == videos;
    StateTalliesPartition(videos);
  }

  // ---------------------------------------------------------------------------
  // uploadCourseVideos

  datatype UploadLesson = UploadLesson(lessonId: string, lessonTitle: string, lessonIndex: int, videoFilePath: string)

  datatype UploadChapter = UploadChapter(chapterId: string, chapterTitle: string, chapterIndex: int,
                                         lessons: seq<UploadLesson>)

  /** The options one lesson of a chapter is uploaded with. */
  function LessonUpload(courseId: string, courseTitle: string, chapter: UploadChapter, lesson: UploadLesson)
    : VideoUploadOptions
  {
    VideoUploadOptions(courseId, courseTitle, chapter.chapterId, chapter.chapterTitle, chapter.chapterIndex,
                       lesson.lessonId, lesson.lessonTitle, lesson.lessonIndex, lesson.videoFilePath, Some(true))
  }

  function ChapterUploads(courseId: string, courseTitle: string, chapter: UploadChapter): (r: seq<VideoUploadOptions>)
    ensures |r| == |chapter.lessons|
  {
    seq(|chapter.lessons|, k requires 0 <= k < |chapter.lessons| =>
      LessonUpload(courseId, courseTitle, chapter, chapter.lessons[k]))
  }

  /** Every lesson's upload, chapter by chapter, in order. */
  function CourseUploads(courseId: string, courseTitle: string, chapters: seq<UploadChapter>): seq<VideoUploadOptions> {
    if chapters == [] then []
    else CourseUploads(courseId, courseTitle, chapters[..|chapters| - 1])
         + ChapterUploads(courseId, courseTitle, chapters[|chapters| - 1])
  }

  function TotalLessons(chapters: seq<UploadChapter>): nat {
    if chapters == [] then 0 else TotalLessons(chapters[..|chapters| - 1]) + |chapters[|chapters| - 1].lessons|
  }

  lemma {:induction false} CourseUploadsLength(courseId: string, courseTitle: string, chapters: seq<UploadChapter>)
    ensures |CourseUploads(courseId, courseTitle, chapters)| == TotalLessons(chapters)
  {
    if chapters != [] {
      CourseUploadsLength(courseId, courseTitle, chapters[..|chapters| - 1]);
    }
  }

  /** The result map after the uploads in `jobs`, in order: a failed upload adds nothing. */
  function UploadResults(jobs: seq<VideoUploadOptions>, upload: VideoUploadOptions -> Result<StreamVideo, string>)
    : (m: map<string, StreamVideo>)
    ensures forall id :: id in m ==> exists k :: 0 <= k < |jobs| && jobs[k].lessonId == id && upload(jobs[k]).Success?
    ensures |m.Keys| <= |jobs|
  {
    if jobs == [] then map[]
    else
      var last := jobs[|jobs| - 1];
      var m := UploadResults(jobs[..|jobs| - 1], upload);
      var result := upload(last);
      if result.Failure? then m
      else
        assert (m[last.lessonId := result.value]).Keys <= m.Keys + {last.lessonId};
        m[last.lessonId := result.value]
  }

  lemma UploadResultsSnoc(jobs: seq<VideoUploadOptions>, job: VideoUploadOptions,
                          upload: VideoUploadOptions -> Result<StreamVideo, string>)
    ensures UploadResults(jobs + [job], upload) ==
              if upload(job).Success? then UploadResults(jobs, upload)[job.lessonId := upload(job).value]
              else UploadResults(jobs, upload)
  {
    assert (jobs + [job])[..|jobs|] == jobs;
  }

  /** Every lesson whose upload succeeds has an entry. */
  lemma {:induction false} UploadResultsComplete(jobs: seq<VideoUploadOptions>,
                                                 upload: VideoUploadOptions -> Result<StreamVideo, string>)
    ensures forall k :: 0 <= k < |jobs| && upload(jobs[k]).Success? ==> jobs[k].lessonId in UploadResults(jobs, upload)
  {
    if jobs != [] {
      var init := jobs[..|jobs| - 1];
      UploadResultsComplete(init, upload);
      forall k | 0 <= k < |jobs| - 1 && upload(jobs[k]).Success?
        ensures jobs[k].lessonId in UploadResults(jobs, upload)
      {
        assert init[k] == jobs[k];
      }
    }
  }

  /** An entry holds the result of the last successful upload under its lesson id. */
  lemma {:induction false} UploadResultsLastWins(jobs: seq<VideoUploadOptions>,
                                                 upload: VideoUploadOptions -> Result<StreamVideo, string>, k: nat)
    requires k < |jobs| && upload(jobs[k]).Success?
    requires forall m :: k < m < |jobs| && jobs[m].lessonId == jobs[k].lessonId ==> upload(jobs[m]).Failure?
    ensures jobs[k].lessonId in UploadResults(jobs, upload)
    ensures UploadResults(jobs, upload)[jobs[k].lessonId] == upload(jobs[k]).value
  {
    var init := jobs[..|jobs| - 1];
    if k < |jobs| - 1 {
      forall m | k < m < |init| && init[m].lessonId == init[k].lessonId
        ensures upload(init[m]).Failure?
      {
        assert init[m] == jobs[m];
      }
      UploadResultsLastWins(init, upload, k);
      var last := jobs[|jobs| - 1];
      assert init[k] == jobs[k];
      if last.lessonId == jobs[k].lessonId {
        assert upload(last).Failure?;
      }
    }
  }

  /** Taking one more element of `b` after all of `a` appends that element. */
  lemma SnocPrefix<T>(a: seq<T>, b: seq<T>, l: nat)
    requires l < |b|
    ensures a + b[..l + 1] == (a + b[..l]) + [b[l]]
  {
    assert b[..l + 1] == b[..l] + [b[l]];
  }

  lemma CourseUploadsSnoc(courseId: string, courseTitle: string, chapters: seq<UploadChapter>, c: nat)
    requires c < |chapters|
    ensures CourseUploads(courseId, courseTitle, chapters[..c + 1]) ==
              CourseUploads(courseId, courseTitle, chapters[..c]) + ChapterUploads(courseId, courseTitle, chapters[c])
  {
    assert chapters[..c + 1][..c] == chapters[..c];
  }

  /**
   * `uploadCourseVideos`: uploads every lesson in order and keeps the successful results,
   * keyed by lesson id; a failed lesson is skipped. The pause between uploads and the
   * progress log are not modelled.
   */
  method UploadCourseVideos(courseId: string, courseTitle: string, chapters: seq<UploadChapter>,
                            upload: VideoUploadOptions -> Result<StreamVideo, string>)
    returns (uploadResults: map<string, StreamVideo>)
    ensures uploadResults == UploadResults(CourseUploads(courseId, courseTitle, chapters), upload)
    ensures |uploadResults.Keys| <= TotalLessons(chapters)
  {
    uploadResults := map[];
    var c := 0;
    while c < |chapters|
      invariant 0 <= c <= |chapters|
      invariant uploadResults == UploadResults(CourseUploads(courseId, courseTitle, chapters[..c]), upload)
    {
      var chapter := chapters[c];
      var done := CourseUploads(courseId, courseTitle, chapters[..c]);
      var jobs := ChapterUploads(courseId, courseTitle, chapter);
      var l := 0;
      assert done + jobs[..l] == done;
      while l < |chapter.lessons|
        invariant 0 <= l <= |chapter.lessons|
        invariant uploadResults == UploadResults(done + jobs[..l], upload)
      {
        var lesson := chapter.lessons[l];
        var result := upload(LessonUpload(courseId, courseTitle, chapter, lesson));
        SnocPrefix(done, jobs, l);
        UploadResultsSnoc(done + jobs[..l], jobs[l], upload);
        if result.Success? {
          uploadResults := uploadResults[lesson.lessonId := result.value];
        }
        l := l + 1;
      }
      CourseUploadsSnoc(courseId, courseTitle, chapters, c);
      assert jobs[..l] == jobs;
      c := c + 1;
    }
    assert chapters[..c] == chapters;
    CourseUploadsLength(courseId, courseTitle, chapters);
  }
}
