/**
 * The bookkeeping rules of the course controller (src/controllers/courseController.ts):
 * the page window and sort whitelist of the course listing, the validation and defaults of
 * course creation, the status rules of update and archive, the in-place operations on a
 * course's lesson list and reviews, and the statistics computed from them.
 * Repository reads and writes are the loaded `Course` object and its fields; the clock and
 * `crypto.randomUUID()` are parameters.
 */
module CourseController {
  import opened Wrappers
  import opened CourseModel

  /** An error reply: HTTP status and message. */
  datatype HttpError = HttpError(status: int, message: string)

  const COURSE_NOT_FOUND: HttpError := HttpError(404, "Course not found")
  const TEACHER_NOT_FOUND: HttpError := HttpError(404, "Teacher not found")
  const MISSING_FIELDS: HttpError := HttpError(400, "Missing required fields")
  const CONTENT_NOT_FOUND: HttpError := HttpError(404, "Course content not found")
  const REVIEW_NOT_FOUND: HttpError := HttpError(404, "Review not found")
  const REVIEW_FIELDS_REQUIRED: HttpError := HttpError(400, "Rating and comment are required")

  /** JavaScript truthiness of an optional string: present and not empty. */
  predicate Truthy(s: Option<string>) {
    s.Some? && s.value != ""
  }

  function Min(a: int, b: int): int {
    if a <= b then a else b
  }

  // ---------------------------------------------------------------------------
  // getAllCourses: page window, page count and sort whitelist

  /** The listing's query parameters; absent ones take their defaults. */
  datatype CourseQuery = CourseQuery(page: Option<int>, limit: Option<int>, sortBy: Option<string>, sortOrder: Option<string>)

  const DEFAULT_PAGE: int := 1
  const DEFAULT_LIMIT: int := 10
  const DEFAULT_SORT_FIELD: string := "createdAt"
  const ALLOWED_SORT_FIELDS: seq<string> := ["createdAt", "updatedAt", "name", "price", "ratings", "purchased"]

  datatype SortOrder = ASC | DESC

  /** Rows skipped before the requested page. */
  function Skip(page: int, limit: int): int {
    (page - 1) * limit
  }

  /** `Math.ceil(a / b)` for a non-zero divisor, on integers. */
  function CeilDiv(a: int, b: int): (q: int)
    requires b != 0
    ensures b > 0 ==> b * (q - 1) < a <= b * q
    ensures b < 0 ==> b * q <= a < b * (q - 1)
  {
    if b > 0 then
      var d := (-a) / b;
      assert -a == b * d + (-a) % b;
      -d
    else
      var d := a / b;
      assert a == b * d + a % b;
      d
  }

  /** The pagination block of the reply. */
  datatype Pagination = Pagination(total: nat, page: int, limit: int, totalPages: Option<int>)

  /**
   * The pagination block for `total` matching courses. `total / 0` is Infinity or NaN,
   * which the JSON reply carries as `null`: that is `None` here.
   */
  function PaginationOf(total: nat, q: CourseQuery): (p: Pagination)
    ensures p.total == total && p.page == q.page.GetOr(DEFAULT_PAGE) && p.limit == q.limit.GetOr(DEFAULT_LIMIT)
    ensures p.totalPages.None? <==> p.limit == 0
    ensures p.limit > 0 ==> p.totalPages.Some? && p.limit * (p.totalPages.value - 1) < total <= p.limit * p.totalPages.value
  {
    var page := q.page.GetOr(DEFAULT_PAGE);
    var limit := q.limit.GetOr(DEFAULT_LIMIT);
    Pagination(total, page, limit, if limit == 0 then None else Some(CeilDiv(total, limit)))
  }

  /**
   * The rows a `skip`/`take` query returns from the matching, ordered rows: at most
   * `limit` of them, starting after the skipped ones.
   */
  function PageOf<T>(rows: seq<T>, page: int, limit: int): (r: seq<T>)
    requires page >= 1 && limit >= 1
    ensures Skip(page, limit) >= 0
    ensures |r| == if Skip(page, limit) >= |rows| then 0 else Min(limit, |rows| - Skip(page, limit))
    ensures forall i :: 0 <= i < |r| ==> Skip(page, limit) + i < |rows| && r[i] == rows[Skip(page, limit) + i]
  {
    var s := Skip(page, limit);
    assert s >= 0 by { assert (page - 1) * limit >= 0 * limit; }
    if s >= |rows| then [] else rows[s .. Min(s + limit, |rows|)]
  }

  /** Pages 1 to `n`, one after the other. */
  function PagesUpTo<T>(rows: seq<T>, limit: int, n: nat): seq<T>
    requires limit >= 1
  {
    if n == 0 then [] else PagesUpTo(rows, limit, n - 1) + PageOf(rows, n, limit)
  }

  lemma {:induction false} PagesUpToPrefix<T>(rows: seq<T>, limit: int, n: nat)
    requires limit >= 1
    ensures n * limit >= 0
    ensures PagesUpTo(rows, limit, n) == rows[..Min(n * limit, |rows|)]
  {
    if n > 0 {
      PagesUpToPrefix(rows, limit, n - 1);
      var s := (n - 1) * limit;
      assert n * limit == s + limit;
      var page := PageOf(rows, n, limit);
      if s < |rows| {
        var e := Min(s + limit, |rows|);
        assert page == rows[s..e];
        assert rows[..s] + rows[s..e] == rows[..e];
      } else {
        assert page == [];
      }
    }
  }

  /** Pages 1 to `totalPages`, read in order, are exactly the matching rows. */
  lemma PagesCoverRows<T>(rows: seq<T>, limit: int)
    requires limit >= 1
    ensures CeilDiv(|rows|, limit) >= 0
    ensures PagesUpTo(rows, limit, CeilDiv(|rows|, limit)) == rows
  {
    var n := CeilDiv(|rows|, limit);
    PagesUpToPrefix(rows, limit, n);
    assert n * limit >= |rows|;
  }

  /** Multiplying by a non-negative factor keeps the order. */
  lemma MulMonotone(a: int, b: int, c: int)
    requires a <= b && c >= 0
    ensures a * c <= b * c
  {
    assert b * c - a * c == (b - a) * c;
  }

  /** A page holds rows exactly when its number is at most `totalPages`. */
  lemma PageNonEmptyIff<T>(rows: seq<T>, page: int, limit: int)
    requires page >= 1 && limit >= 1
    ensures PageOf(rows, page, limit) != [] <==> page <= CeilDiv(|rows|, limit)
  {
    var n := CeilDiv(|rows|, limit);
    var s := Skip(page, limit);
    assert PageOf(rows, page, limit) != [] <==> s < |rows|;
    if page <= n {
      MulMonotone(page - 1, n - 1, limit);
      assert s <= limit * (n - 1);
    } else {
      MulMonotone(n, page - 1, limit);
      assert limit * n <= s;
    }
  }

  /** Consecutive pages are adjacent: the next page starts where this one's window ends. */
  lemma NextPageAdjacent(page: int, limit: int)
    requires page >= 1 && limit >= 1
    ensures Skip(page + 1, limit) == Skip(page, limit) + limit
  {
  }

  /** The sort column: the requested one when it is whitelisted, `createdAt` otherwise. */
  function SortField(sortBy: Option<string>): (f: string)
    ensures f in ALLOWED_SORT_FIELDS
    ensures sortBy.Some? && sortBy.value in ALLOWED_SORT_FIELDS ==> f == sortBy.value
    ensures (sortBy.None? || sortBy.value !in ALLOWED_SORT_FIELDS) ==> f == DEFAULT_SORT_FIELD
  {
    var requested := sortBy.GetOr(DEFAULT_SORT_FIELD);
    if requested in ALLOWED_SORT_FIELDS then requested else DEFAULT_SORT_FIELD
  }

  /** Ascending only for exactly "ASC"; descending for anything else, absent included. */
  function SortDirection(sortOrder: Option<string>): (d: SortOrder)
    ensures d == ASC <==> sortOrder == Some("ASC")
  {
    if sortOrder.GetOr("DESC") == "ASC" then ASC else DESC
  }

  /** The listing reply for the matching rows, already filtered and ordered by the database. */
  datatype CourseList<T> = CourseList(data: seq<T>, pagination: Pagination)

  function GetAllCourses<T>(matching: seq<T>, q: CourseQuery): (r: CourseList<T>)
    requires q.page.GetOr(DEFAULT_PAGE) >= 1 && q.limit.GetOr(DEFAULT_LIMIT) >= 1
    ensures r.pagination == PaginationOf(|matching|, q)
    ensures r.data == PageOf(matching, r.pagination.page, r.pagination.limit)
    ensures r.pagination.totalPages.Some?
    ensures r.data != [] <==> r.pagination.page <= r.pagination.totalPages.value
  {
    var p := PaginationOf(|matching|, q);
    PageNonEmptyIff(matching, p.page, p.limit);
    CourseList(PageOf(matching, p.page, p.limit), p)
  }

  // ---------------------------------------------------------------------------
  // createCourse

  /** The body of a create request; absent fields are `None`. */
  datatype CreateCourseRequest = CreateCourseRequest(
    name: Option<string>,
    description: Option<string>,
    categories: Option<string>,
    price: Option<int>,
    estimatedPrice: Option<int>,
    thumbnail: Option<string>,
    tags: Option<string>,
    level: Option<string>,
    demoUrl: Option<string>,
    benefits: Option<seq<string>>,
    prerequisites: Option<seq<string>>,
    teacherId: Option<string>,
    courseData: Option<seq<CourseData>>,
    status: Option<CourseStatus>)

  /** The row `createCourse` saves. */
  datatype NewCourse = NewCourse(
    name: string,
    description: string,
    categories: string,
    price: int,
    estimatedPrice: Option<int>,
    thumbnail: Option<string>,
    tags: string,
    level: string,
    demoUrl: string,
    benefits: seq<string>,
    prerequisites: seq<string>,
    teacher: Option<string>,
    courseData: seq<CourseData>,
    reviews: seq<Review>,
    status: CourseStatus,
    publishedAt: Option<int>)

  predicate HasRequiredFields(req: CreateCourseRequest) {
    Truthy(req.name) && Truthy(req.description) && Truthy(req.categories)
    && Truthy(req.tags) && Truthy(req.level) && Truthy(req.demoUrl)
  }

  /** A published course carries its publication time. */
  predicate PublishedDated(status: CourseStatus, publishedAt: Option<int>) {
    status == PUBLISHED ==> publishedAt.Some?
  }

  /**
   * `createCourse`: `users` are the ids of the existing user rows. A missing required
   * field is refused before the teacher is looked up; `x || default` keeps a falsy value
   * out, so a zero estimated price and an empty thumbnail are stored as `null`.
   */
  function CreateCourse(req: CreateCourseRequest, users: set<string>, now: int): (r: Result<NewCourse, HttpError>)
    ensures !HasRequiredFields(req) <==> r == Failure(MISSING_FIELDS)
    ensures HasRequiredFields(req) ==>
              (r == Failure(TEACHER_NOT_FOUND) <==> Truthy(req.teacherId) && req.teacherId.value !in users)
    ensures r.Failure? ==> r == Failure(MISSING_FIELDS) || r == Failure(TEACHER_NOT_FOUND)
    ensures r.Success? ==>
              && r.value.name == req.name.value && r.value.description == req.description.value
              && r.value.categories == req.categories.value && r.value.tags == req.tags.value
              && r.value.level == req.level.value && r.value.demoUrl == req.demoUrl.value
              && r.value.status == req.status.GetOr(DRAFT)
              && (r.value.publishedAt.Some? <==> r.value.status == PUBLISHED)
              && (r.value.publishedAt.Some? ==> r.value.publishedAt.value == now)
              && r.value.reviews == []
              && r.value.courseData == req.courseData.GetOr([])
              && (r.value.teacher.Some? <==> Truthy(req.teacherId))
              && (r.value.teacher.Some? ==> r.value.teacher.value in users)
              && (r.value.estimatedPrice.Some? ==> r.value.estimatedPrice.value != 0)
              && (r.value.thumbnail.Some? ==> r.value.thumbnail.value != "")
  {
    if !HasRequiredFields(req) then Failure(MISSING_FIELDS)
    else if Truthy(req.teacherId) && req.teacherId.value !in users then Failure(TEACHER_NOT_FOUND)
    else
      var status := req.status.GetOr(DRAFT);
      Success(NewCourse(
        req.name.value, req.description.value, req.categories.value,
        req.price.GetOr(0),
        if req.estimatedPrice.Some? && req.estimatedPrice.value != 0 then req.estimatedPrice else None,
        if Truthy(req.thumbnail) then req.thumbnail else None,
        req.tags.value, req.level.value, req.demoUrl.value,
        req.benefits.GetOr([]), req.prerequisites.GetOr([]),
        if Truthy(req.teacherId) then req.teacherId else None,
        req.courseData.GetOr([]), [], status,
        if status == PUBLISHED then Some(now) else None))
  }

  /** Every created course satisfies the publication invariant. */
  lemma CreatedIsDated(req: CreateCourseRequest, users: set<string>, now: int)
    ensures CreateCourse(req, users, now).Success? ==>
              PublishedDated(CreateCourse(req, users, now).value.status, CreateCourse(req, users, now).value.publishedAt)
  {
  }

  // ---------------------------------------------------------------------------
  // updateCourse and deleteCourse

  /** The fields an update request carries; `Object.assign` copies the present ones. */
  datatype CoursePatch = CoursePatch(
    name: Option<string>,
    status: Option<CourseStatus>,
    publishedAt: Option<int>,
    teacherId: Option<string>,
    courseData: Option<seq<CourseData>>,
    reviews: Option<seq<Review>>)

  /** The update moves the course into PUBLISHED from another status. */
  predicate PublishTransition(oldStatus: CourseStatus, patch: CoursePatch) {
    patch.status == Some(PUBLISHED) && oldStatus != PUBLISHED
  }

  /** The publication time after an update: stamped with `now` on a move into PUBLISHED. */
  function PublishedAtAfter(oldStatus: CourseStatus, oldPublishedAt: Option<int>, patch: CoursePatch, now: int): (t: Option<int>)
    ensures PublishTransition(oldStatus, patch) ==> t == Some(now)
    ensures !PublishTransition(oldStatus, patch) && patch.publishedAt.None? ==> t == oldPublishedAt
  {
    if PublishTransition(oldStatus, patch) then Some(now)
    else if patch.publishedAt.Some? then patch.publishedAt
    else oldPublishedAt
  }

  /** An update keeps a published course dated. */
  lemma UpdateKeepsDated(oldStatus: CourseStatus, oldPublishedAt: Option<int>, patch: CoursePatch, now: int)
    requires PublishedDated(oldStatus, oldPublishedAt)
    ensures PublishedDated(patch.status.GetOr(oldStatus), PublishedAtAfter(oldStatus, oldPublishedAt, patch, now))
  {
  }

  /**
   * `updateCourse`: `users` are the ids of the existing user rows. A truthy teacher id must
   * name a user; the publication time is stamped only on a move into PUBLISHED; then the
   * present fields overwrite the course's.
   */
  method UpdateCourse(course: Course?, patch: CoursePatch, users: set<string>, now: int)
    returns (r: Result<(), HttpError>)
    modifies course
    ensures course == null ==> r == Failure(COURSE_NOT_FOUND)
    ensures course != null && Truthy(patch.teacherId) && patch.teacherId.value !in users ==>
              r == Failure(TEACHER_NOT_FOUND) && unchanged(course)
    ensures course != null && !(Truthy(patch.teacherId) && patch.teacherId.value !in users) ==>
              && r == Success(())
              && course.name == patch.name.GetOr(old(course.name))
              && course.status == patch.status.GetOr(old(course.status))
              && course.publishedAt == PublishedAtAfter(old(course.status), old(course.publishedAt), patch, now)
              && course.teacher == (if Truthy(patch.teacherId) then patch.teacherId else old(course.teacher))
              && course.courseData == patch.courseData.GetOr(old(course.courseData))
              && course.reviews == patch.reviews.GetOr(old(course.reviews))
    ensures course != null && PublishedDated(old(course.status), old(course.publishedAt)) ==>
              PublishedDated(course.status, course.publishedAt)
  {
    if course == null {
      return Failure(COURSE_NOT_FOUND);
    }
    if Truthy(patch.teacherId) {
      if patch.teacherId.value !in users {
        return Failure(TEACHER_NOT_FOUND);
      }
      course.teacher := patch.teacherId;
    }
    if PublishedDated(course.status, course.publishedAt) {
      UpdateKeepsDated(course.status, course.publishedAt, patch, now);
    }
    course.publishedAt := PublishedAtAfter(course.status, course.publishedAt, patch, now);
    course.name := patch.name.GetOr(course.name);
    course.status := patch.status.GetOr(course.status);
    course.courseData := patch.courseData.GetOr(course.courseData);
    course.reviews := patch.reviews.GetOr(course.reviews);
    return Success(());
  }

  /** `deleteCourse`: a soft delete; the status becomes ARCHIVED and nothing else changes. */
  method DeleteCourse(course: Course?) returns (r: Result<(), HttpError>)
    modifies course
    ensures course == null ==> r == Failure(COURSE_NOT_FOUND)
    ensures course != null ==>
              && r == Success(())
              && course.status == ARCHIVED
              && course.name == old(course.name) && course.publishedAt == old(course.publishedAt)
              && course.teacher == old(course.teacher) && course.courseData == old(course.courseData)
              && course.reviews == old(course.reviews)
              && PublishedDated(course.status, course.publishedAt)
  {
    if course == null {
      return Failure(COURSE_NOT_FOUND);
    }
    course.status := ARCHIVED;
    return Success(());
  }

  // ---------------------------------------------------------------------------
  // addCourseContent and updateCourseContent

  /** The body of an add-content request; missing lists default to empty. */
  datatype ContentInput = ContentInput(
    title: string,
    index: int,
    videoSection: Option<string>,
    sectionIndex: Option<int>,
    description: string,
    videoLength: Option<int>,
    videoCfUid: Option<string>,
    videoStatus: Option<VideoStatus>,
    links: Option<seq<Link>>,
    questions: Option<seq<Question>>)

  /** The entry `addCourseContent` appends: the request's fields, a fresh id, both times `now`. */
  function NewContent(input: ContentInput, newId: string, now: int): (c: CourseData)
    ensures c.id == newId && c.createdAt == Some(now) && c.updatedAt == Some(now)
    ensures c.questions == input.questions.GetOr([]) && c.links == input.links.GetOr([])
    ensures c.title == input.title && c.index == input.index && c.description == input.description
    ensures c.videoLength == input.videoLength && c.sectionIndex == input.sectionIndex
  {
    CourseData(newId, input.title, input.index, input.videoSection, input.sectionIndex, input.description,
               input.videoLength, input.videoCfUid, input.videoStatus,
               input.links.GetOr([]), input.questions.GetOr([]), Some(now), Some(now))
  }

  /** No two lesson entries share an id. */
  predicate IdsUnique(data: seq<CourseData>) {
    forall i, j :: 0 <= i < j < |data| ==> data[i].id != data[j].id
  }

  /**
   * `addCourseContent`: appends exactly one entry at the end. `newId` stands for
   * `crypto.randomUUID()`.
   */
  method AddCourseContent(course: Course?, input: ContentInput, newId: string, now: int)
    returns (r: Result<(), HttpError>)
    modifies course
    ensures course == null ==> r == Failure(COURSE_NOT_FOUND)
    ensures course != null ==>
              && r == Success(())
              && course.courseData == old(course.courseData) + [NewContent(input, newId, now)]
              && course.name == old(course.name) && course.status == old(course.status)
              && course.publishedAt == old(course.publishedAt) && course.teacher == old(course.teacher)
              && course.reviews == old(course.reviews)
  {
    if course == null {
      return Failure(COURSE_NOT_FOUND);
    }
    course.courseData := course.courseData + [NewContent(input, newId, now)];
    return Success(());
  }

  /** Appending an entry with a fresh id keeps the lesson ids unique. */
  lemma AddKeepsIdsUnique(data: seq<CourseData>, c: CourseData)
    requires IdsUnique(data)
    requires forall k :: 0 <= k < |data| ==> data[k].id != c.id
    ensures IdsUnique(data + [c])
  {
    var after := data + [c];
    forall i, j | 0 <= i < j < |after| ensures after[i].id != after[j].id {
      assert after[i] == data[i];
    }
  }

  /** The appended entry is the one a later update by its id finds. */
  lemma AddedContentFound(data: seq<CourseData>, input: ContentInput, newId: string, now: int)
    requires forall k :: 0 <= k < |data| ==> data[k].id != newId
    ensures IndexOfId(data + [NewContent(input, newId, now)], newId) == Some(|data|)
  {
    var after := data + [NewContent(input, newId, now)];
    assert after[|data|].id == newId;
  }

  /** The fields of an update-content request; present ones overwrite the entry's. */
  datatype ContentPatch = ContentPatch(
    id: Option<string>,
    title: Option<string>,
    index: Option<int>,
    videoSection: Option<string>,
    sectionIndex: Option<int>,
    description: Option<string>,
    videoLength: Option<int>,
    videoCfUid: Option<string>,
    videoStatus: Option<VideoStatus>,
    links: Option<seq<Link>>,
    questions: Option<seq<Question>>,
    createdAt: Option<int>)

  /** A present patch value wins over the current one. */
  function Over<T>(patch: Option<T>, current: T): T {
    patch.GetOr(current)
  }

  /** A present patch value wins over the current optional one. */
  function OverOpt<T>(patch: Option<T>, current: Option<T>): Option<T> {
    if patch.Some? then patch else current
  }

  /** `{ ...entry, ...patch, updatedAt: now }`. */
  function MergeContent(e: CourseData, p: ContentPatch, now: int): (m: CourseData)
    ensures m.updatedAt == Some(now)
    ensures p.id.None? ==> m.id == e.id
    ensures p.questions.None? ==> m.questions == e.questions
    ensures p.videoLength.None? ==> m.videoLength == e.videoLength
  {
    CourseData(
      Over(p.id, e.id), Over(p.title, e.title), Over(p.index, e.index),
      OverOpt(p.videoSection, e.videoSection), OverOpt(p.sectionIndex, e.sectionIndex),
      Over(p.description, e.description), OverOpt(p.videoLength, e.videoLength),
      OverOpt(p.videoCfUid, e.videoCfUid), OverOpt(p.videoStatus, e.videoStatus),
      Over(p.links, e.links), Over(p.questions, e.questions),
      OverOpt(p.createdAt, e.createdAt), Some(now))
  }

  /** The patch with no fields. */
  const EMPTY_PATCH: ContentPatch := ContentPatch(None, None, None, None, None, None, None, None, None, None, None, None)

  /** Applying the same patch twice is applying it once, at the later time. */
  lemma MergeIdempotent(e: CourseData, p: ContentPatch, t1: int, t2: int)
    ensures MergeContent(MergeContent(e, p, t1), p, t2) == MergeContent(e, p, t2)
  {
  }

  /** An empty patch only refreshes the update time. */
  lemma MergeEmptyPatch(e: CourseData, now: int)
    ensures MergeContent(e, EMPTY_PATCH, now) == e.(updatedAt := Some(now))
  {
  }

  /** The lesson list after `updateCourseContent`, or its error. */
  function UpdatedContent(data: seq<CourseData>, contentId: string, patch: ContentPatch, now: int)
    : (r: Result<seq<CourseData>, HttpError>)
    ensures r.Failure? <==> forall k :: 0 <= k < |data| ==> data[k].id != contentId
    ensures r.Failure? ==> r.error == CONTENT_NOT_FOUND
    ensures r.Success? ==>
              var i := IndexOfId(data, contentId).value;
              && |r.value| == |data|
              && r.value[i] == MergeContent(data[i], patch, now)
              && forall k :: 0 <= k < |data| && k != i ==> r.value[k] == data[k]
  {
    match IndexOfId(data, contentId)
    case None => Failure(CONTENT_NOT_FOUND)
    case Some(i) => Success(data[i := MergeContent(data[i], patch, now)])
  }

  /**
   * Only the first entry with the id is changed, and an update that does not rewrite the id
   * leaves it where the next update by that id finds it.
   */
  lemma UpdateFindsSameEntry(data: seq<CourseData>, contentId: string, patch: ContentPatch, now: int)
    requires UpdatedContent(data, contentId, patch, now).Success?
    requires patch.id.None? || patch.id == Some(contentId)
    ensures IndexOfId(UpdatedContent(data, contentId, patch, now).value, contentId) == IndexOfId(data, contentId)
  {
    var after := UpdatedContent(data, contentId, patch, now).value;
    var i := IndexOfId(data, contentId).value;
    assert after[i].id == contentId;
    assert forall k :: 0 <= k < i ==> after[k].id != contentId by {
      forall k | 0 <= k < i ensures after[k].id != contentId {
        assert after[k] == data[k];
      }
    }
  }

  /** Repeating an update with the same patch gives the same list as doing it once, later. */
  lemma UpdateIdempotent(data: seq<CourseData>, contentId: string, patch: ContentPatch, t1: int, t2: int)
    requires UpdatedContent(data, contentId, patch, t1).Success?
    requires patch.id.None? || patch.id == Some(contentId)
    ensures UpdatedContent(UpdatedContent(data, contentId, patch, t1).value, contentId, patch, t2)
            == UpdatedContent(data, contentId, patch, t2)
  {
    var once := UpdatedContent(data, contentId, patch, t1).value;
    var i := IndexOfId(data, contentId).value;
    UpdateFindsSameEntry(data, contentId, patch, t1);
    MergeIdempotent(data[i], patch, t1, t2);
    assert once[i := MergeContent(once[i], patch, t2)] == data[i := MergeContent(data[i], patch, t2)];
  }

  /** `updateCourseContent`: merges the patch into the first entry with the id. */
  method UpdateCourseContent(course: Course?, contentId: string, patch: ContentPatch, now: int)
    returns (r: Result<(), HttpError>)
    modifies course
    ensures course == null ==> r == Failure(COURSE_NOT_FOUND)
    ensures course != null ==>
              var updated := UpdatedContent(old(course.courseData), contentId, patch, now);
              && (updated.Success? ==> r == Success(()) && course.courseData == updated.value)
              && (updated.Failure? ==> r == Failure(updated.error) && course.courseData == old(course.courseData))
              && course.name == old(course.name) && course.status == old(course.status)
              && course.publishedAt == old(course.publishedAt) && course.teacher == old(course.teacher)
              && course.reviews == old(course.reviews)
  {
    if course == null {
      return Failure(COURSE_NOT_FOUND);
    }
    var contentIndex := IndexOfId(course.courseData, contentId);
    if contentIndex.None? {
      return Failure(CONTENT_NOT_FOUND);
    }
    var i := contentIndex.value;
    course.courseData := course.courseData[i := MergeContent(course.courseData[i], patch, now)];
    return Success(());
  }

  // ---------------------------------------------------------------------------
  // addReview and addReviewReply

  /** Index of the first review whose id is `id` (`findIndex`), if any. */
  function IndexOfReview(reviews: seq<Review>, id: string): (r: Option<nat>)
    ensures r.None? <==> forall k :: 0 <= k < |reviews| ==> reviews[k].id != id
    ensures r.Some? ==> r.value < |reviews| && reviews[r.value].id == id
                        && forall k :: 0 <= k < r.value ==> reviews[k].id != id
  {
    if reviews == [] then None
    else if reviews[0].id == id then Some(0)
    else
      var rest := IndexOfReview(reviews[1..], id);
      if rest.None? then None else Some(rest.value + 1)
  }

  /**
   * The reviews after `addReview`: a truthy rating and comment are required before the
   * course is looked up. `newId` stands for `crypto.randomUUID()`.
   */
  function ReviewAdded(reviews: seq<Review>, userId: string, rating: Option<int>, comment: Option<string>,
                       newId: string, now: int): (r: Result<seq<Review>, HttpError>)
    ensures r.Failure? <==> rating.None? || rating.value == 0 || !Truthy(comment)
    ensures r.Failure? ==> r.error == REVIEW_FIELDS_REQUIRED
    ensures r.Success? ==>
              && |r.value| == |reviews| + 1 && r.value[..|reviews|] == reviews
              && r.value[|reviews|] == Review(newId, userId, rating.value, comment.value, [], now, now)
  {
    if rating.None? || rating.value == 0 || !Truthy(comment) then Failure(REVIEW_FIELDS_REQUIRED)
    else Success(reviews + [Review(newId, userId, rating.value, comment.value, [], now, now)])
  }

  /** `addReview` on a loaded course, with the field check made before the lookup. */
  method AddReview(course: Course?, userId: string, rating: Option<int>, comment: Option<string>,
                   newId: string, now: int)
    returns (r: Result<(), HttpError>)
    modifies course
    ensures ReviewAdded([], userId, rating, comment, newId, now).Failure? ==>
              r == Failure(REVIEW_FIELDS_REQUIRED) && (course != null ==> unchanged(course))
    ensures ReviewAdded([], userId, rating, comment, newId, now).Success? && course == null ==>
              r == Failure(COURSE_NOT_FOUND)
    ensures course != null ==>
              var added := ReviewAdded(old(course.reviews), userId, rating, comment, newId, now);
              && (added.Success? ==> r == Success(()) && course.reviews == added.value)
              && (added.Failure? ==> course.reviews == old(course.reviews))
              && course.name == old(course.name) && course.status == old(course.status)
              && course.publishedAt == old(course.publishedAt) && course.teacher == old(course.teacher)
              && course.courseData == old(course.courseData)
  {
    if rating.None? || rating.value == 0 || !Truthy(comment) {
      return Failure(REVIEW_FIELDS_REQUIRED);
    }
    if course == null {
      return Failure(COURSE_NOT_FOUND);
    }
    course.reviews := course.reviews + [Review(newId, userId, rating.value, comment.value, [], now, now)];
    return Success(());
  }

  /** The review after a reply: the reply appended and the update time set. */
  function WithReply(rv: Review, reply: Reply): (out: Review)
    ensures out.id == rv.id && out.userId == rv.userId && out.rating == rv.rating && out.comment == rv.comment
    ensures out.commentReplies == rv.commentReplies + [reply] && out.updatedAt == reply.createdAt
  {
    rv.(commentReplies := rv.commentReplies + [reply], updatedAt := reply.createdAt)
  }

  /** The reviews after `addReviewReply`, or its error. */
  function RepliedReviews(reviews: seq<Review>, reviewId: string, user: string, comment: string,
                          rating: Option<int>, now: int): (r: Result<seq<Review>, HttpError>)
    ensures r.Failure? <==> forall k :: 0 <= k < |reviews| ==> reviews[k].id != reviewId
    ensures r.Failure? ==> r.error == REVIEW_NOT_FOUND
    ensures r.Success? ==>
              var i := IndexOfReview(reviews, reviewId).value;
              && |r.value| == |reviews|
              && r.value[i].commentReplies == reviews[i].commentReplies + [Reply(user, comment, rating, now)]
              && r.value[i].updatedAt == now && r.value[i].id == reviews[i].id
              && r.value[i].rating == reviews[i].rating && r.value[i].comment == reviews[i].comment
              && forall k :: 0 <= k < |reviews| && k != i ==> r.value[k] == reviews[k]
  {
    match IndexOfReview(reviews, reviewId)
    case None => Failure(REVIEW_NOT_FOUND)
    case Some(i) => Success(reviews[i := WithReply(reviews[i], Reply(user, comment, rating, now))])
  }

  /** `addReviewReply`: appends one reply to the first review with the id, and to no other. */
  method AddReviewReply(course: Course?, reviewId: string, user: string, comment: string,
                        rating: Option<int>, now: int)
    returns (r: Result<(), HttpError>)
    modifies course
    ensures course == null ==> r == Failure(COURSE_NOT_FOUND)
    ensures course != null ==>
              var replied := RepliedReviews(old(course.reviews), reviewId, user, comment, rating, now);
              && (replied.Success? ==> r == Success(()) && course.reviews == replied.value)
              && (replied.Failure? ==> r == Failure(replied.error) && course.reviews == old(course.reviews))
              && course.name == old(course.name) && course.status == old(course.status)
              && course.publishedAt == old(course.publishedAt) && course.teacher == old(course.teacher)
              && course.courseData == old(course.courseData)
  {
    if course == null {
      return Failure(COURSE_NOT_FOUND);
    }
    var reviewIndex := IndexOfReview(course.reviews, reviewId);
    if reviewIndex.None? {
      return Failure(REVIEW_NOT_FOUND);
    }
    var i := reviewIndex.value;
    course.reviews := course.reviews[i := WithReply(course.reviews[i], Reply(user, comment, rating, now))];
    return Success(());
  }

  /** All replies over all reviews. */
  function ReplyTotal(reviews: seq<Review>): nat {
    if reviews == [] then 0
    else ReplyTotal(reviews[..|reviews| - 1]) + |reviews[|reviews| - 1].commentReplies|
  }

  /** Replacing one review changes the total by the difference of its reply counts. */
  lemma {:induction false} ReplyTotalUpdate(reviews: seq<Review>, i: nat, rv: Review)
    requires i < |reviews|
    ensures ReplyTotal(reviews[i := rv]) == ReplyTotal(reviews) - |reviews[i].commentReplies| + |rv.commentReplies|
  {
    var n := |reviews|;
    var after := reviews[i := rv];
    if i == n - 1 {
      assert after[..n - 1] == reviews[..n - 1];
    } else {
      ReplyTotalUpdate(reviews[..n - 1], i, rv);
      assert after[..n - 1] == reviews[..n - 1][i := rv];
    }
  }

  /** A reply adds exactly one reply to the course and no review. */
  lemma ReplyAddsOne(reviews: seq<Review>, reviewId: string, user: string, comment: string, rating: Option<int>, now: int)
    requires RepliedReviews(reviews, reviewId, user, comment, rating, now).Success?
    ensures var after := RepliedReviews(reviews, reviewId, user, comment, rating, now).value;
            |after| == |reviews| && ReplyTotal(after) == ReplyTotal(reviews) + 1
  {
    var i := IndexOfReview(reviews, reviewId).value;
    ReplyTotalUpdate(reviews, i, WithReply(reviews[i], Reply(user, comment, rating, now)));
  }

  // ---------------------------------------------------------------------------
  // getCourseStats

  /** The computed part of the statistics reply. */
  datatype CourseStats = CourseStats(totalLessons: nat, totalReviews: nat, totalQuestions: nat, totalVideoLength: int)

  /** `reduce((sum, c) => sum + c.questions.length, 0)`. */
  function QuestionTotal(data: seq<CourseData>): nat {
    if data == [] then 0 else QuestionTotal(data[..|data| - 1]) + |data[|data| - 1].questions|
  }

  /** `reduce((sum, c) => sum + (c.videoLength || 0), 0)`. */
  function VideoLengthTotal(data: seq<CourseData>): int {
    if data == [] then 0 else VideoLengthTotal(data[..|data| - 1]) + data[|data| - 1].videoLength.GetOr(0)
  }

  function StatsOf(data: seq<CourseData>, reviews: seq<Review>): CourseStats {
    CourseStats(|data|, |reviews|, QuestionTotal(data), VideoLengthTotal(data))
  }

  /** `getCourseStats` on a loaded course. */
  function GetCourseStats(course: Course?): (r: Result<CourseStats, HttpError>)
    reads course
    ensures course == null <==> r == Failure(COURSE_NOT_FOUND)
    ensures r.Success? ==> r.value.totalLessons == |course.courseData| && r.value.totalReviews == |course.reviews|
  {
    if course == null then Failure(COURSE_NOT_FOUND) else Success(StatsOf(course.courseData, course.reviews))
  }

  /** The totals of a concatenation are the sums of the totals: the reduction adds up entry by entry. */
  lemma {:induction false} TotalsAppend(a: seq<CourseData>, b: seq<CourseData>)
    ensures QuestionTotal(a + b) == QuestionTotal(a) + QuestionTotal(b)
    ensures VideoLengthTotal(a + b) == VideoLengthTotal(a) + VideoLengthTotal(b)
  {
    if b != [] {
      var n := |b|;
      assert (a + b)[..|a + b| - 1] == a + b[..n - 1];
      TotalsAppend(a, b[..n - 1]);
    } else {
      assert a + b == a;
    }
  }

  /** Adding content adds one lesson, its questions and its video length (missing counts 0). */
  lemma StatsAfterAdd(data: seq<CourseData>, reviews: seq<Review>, c: CourseData)
    ensures StatsOf(data + [c], reviews) ==
            CourseStats(|data| + 1, |reviews|, QuestionTotal(data) + |c.questions|,
                        VideoLengthTotal(data) + c.videoLength.GetOr(0))
  {
    assert (data + [c])[..|data + [c]| - 1] == data;
  }

  /** Replacing one entry changes the totals by the difference between the two entries. */
  lemma {:induction false} TotalsUpdate(data: seq<CourseData>, i: nat, c: CourseData)
    requires i < |data|
    ensures QuestionTotal(data[i := c]) == QuestionTotal(data) - |data[i].questions| + |c.questions|
    ensures VideoLengthTotal(data[i := c]) == VideoLengthTotal(data) - data[i].videoLength.GetOr(0) + c.videoLength.GetOr(0)
  {
    var n := |data|;
    var after := data[i := c];
    if i == n - 1 {
      assert after[..n - 1] == data[..n - 1];
    } else {
      TotalsUpdate(data[..n - 1], i, c);
      assert after[..n - 1] == data[..n - 1][i := c];
    }
  }

  /** An update that leaves questions and video length alone leaves the statistics alone. */
  lemma StatsAfterUpdate(data: seq<CourseData>, reviews: seq<Review>, contentId: string, patch: ContentPatch, now: int)
    requires UpdatedContent(data, contentId, patch, now).Success?
    requires patch.questions.None? && patch.videoLength.None?
    ensures StatsOf(UpdatedContent(data, contentId, patch, now).value, reviews) == StatsOf(data, reviews)
  {
    var i := IndexOfId(data, contentId).value;
    TotalsUpdate(data, i, MergeContent(data[i], patch, now));
  }

  /** A reply changes no statistic. */
  lemma StatsAfterReply(data: seq<CourseData>, reviews: seq<Review>, reviewId: string, user: string,
                        comment: string, rating: Option<int>, now: int)
    requires RepliedReviews(reviews, reviewId, user, comment, rating, now).Success?
    ensures StatsOf(data, RepliedReviews(reviews, reviewId, user, comment, rating, now).value) == StatsOf(data, reviews)
  {
  }
}
