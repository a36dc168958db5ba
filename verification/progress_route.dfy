/** `PATCH /api/progress`: record one answer. The handler authenticates, validates the
    body, loads the (member, question) record, asks the scheduler for the next
    interval, ease and due date, and writes them back with the new status. */
module ProgressRoute {
  import opened Wrappers
  import opened Json
  import opened Schema
  import Scheduler

  predicate IsHexDigit(c: char) {
    '0' <= c <= '9' || 'a' <= c <= 'f' || 'A' <= c <= 'F'
  }

  /** Positions `lo` to `hi - 1` of `s` hold hexadecimal digits. */
  predicate HexRun(s: string, lo: nat, hi: nat)
    requires lo <= hi <= |s|
  {
    forall i :: lo <= i < hi ==> IsHexDigit(s[i])
  }

  /** zod's `uuid()` pattern: five groups of 8, 4, 4, 4 and 12 hexadecimal digits, either
      case, joined by hyphens; equivalently, 36 characters with a hyphen at positions 8,
      13, 18 and 23 and a hexadecimal digit everywhere else. */
  predicate IsUuid(s: string)
    ensures IsUuid(s) <==> |s| == 36 && forall i :: 0 <= i < |s| ==>
      (if i == 8 || i == 13 || i == 18 || i == 23 then s[i] == '-' else IsHexDigit(s[i]))
  {
    |s| == 36
    && HexRun(s, 0, 8) && s[8] == '-' && HexRun(s, 9, 13) && s[13] == '-'
    && HexRun(s, 14, 18) && s[18] == '-' && HexRun(s, 19, 23) && s[23] == '-'
    && HexRun(s, 24, 36)
  }

  /** Spelling the hexadecimal letters of an id in lower case keeps it well-formed, and
      an id is well-formed whenever its lower-case spelling is. */
  lemma CanonicalUuidKeepsShape(s: string)
    ensures IsUuid(CanonicalUuid(s)) <==> IsUuid(s)
  {
    var r := CanonicalUuid(s);
    assert forall i :: 0 <= i < |s| ==> (IsHexDigit(r[i]) <==> IsHexDigit(s[i])) && (r[i] == '-' <==> s[i] == '-');
  }

  /** The validated body of the request. */
  datatype UpdateRequest = UpdateRequest(memberId: string, questionId: string, isCorrect: bool)

  /** Why `updateProgressSchema` rejected a body: it is not an object at all, or the
      named fields are missing or of the wrong type. */
  datatype ValidationError = NotAnObject | InvalidFields(fields: set<string>)

  predicate UuidField(fields: map<string, Json>, name: string) {
    name in fields && fields[name].JString? && IsUuid(fields[name].s)
  }

  predicate BoolField(fields: map<string, Json>, name: string) {
    name in fields && fields[name].JBool?
  }

  /** `updateProgressSchema.safeParse`. Unknown keys are ignored; every faulty field is reported. */
  function Validate(body: Json): (r: Result<UpdateRequest, ValidationError>)
    ensures r.Success? <==>
      body.JObject? && UuidField(body.fields, "memberId") && UuidField(body.fields, "questionId")
      && BoolField(body.fields, "isCorrect")
    ensures r.Success? ==>
      body.fields["memberId"] == JString(r.value.memberId)
      && body.fields["questionId"] == JString(r.value.questionId)
      && body.fields["isCorrect"] == JBool(r.value.isCorrect)
    ensures !body.JObject? ==> r == Failure(NotAnObject)
    ensures body.JObject? && r.Failure? ==>
      r.error.InvalidFields? && r.error.fields != {}
      && ("memberId" in r.error.fields <==> !UuidField(body.fields, "memberId"))
      && ("questionId" in r.error.fields <==> !UuidField(body.fields, "questionId"))
      && ("isCorrect" in r.error.fields <==> !BoolField(body.fields, "isCorrect"))
  {
    if !body.JObject? then Failure(NotAnObject)
    else
      var f := body.fields;
      var bad :=
        (if UuidField(f, "memberId") then {} else {"memberId"})
        + (if UuidField(f, "questionId") then {} else {"questionId"})
        + (if BoolField(f, "isCorrect") then {} else {"isCorrect"});
      if bad == {} then Success(UpdateRequest(f["memberId"].s, f["questionId"].s, f["isCorrect"].b))
      else Failure(InvalidFields(bad))
  }

  /** The body the practice screens send: `JSON.stringify({ memberId, questionId, isCorrect })`. */
  function RequestBody(req: UpdateRequest): (body: Json)
    ensures Validate(body).Success? <==> IsUuid(req.memberId) && IsUuid(req.questionId)
    ensures Validate(body).Success? ==> Validate(body).value == req
    ensures Validate(body).Failure? ==>
      Validate(body).error.InvalidFields? && "isCorrect" !in Validate(body).error.fields
  {
    JObject(map["memberId" := JString(req.memberId), "questionId" := JString(req.questionId),
                "isCorrect" := JBool(req.isCorrect)])
  }

  /** A body built from well-formed ids validates back to the same request. */
  lemma ValidateRequestBody(req: UpdateRequest)
    requires IsUuid(req.memberId) && IsUuid(req.questionId)
    ensures Validate(RequestBody(req)) == Success(req)
  {
  }

  /** A malformed id in that body is reported by name. */
  lemma ValidateRejectsMalformedId(req: UpdateRequest)
    requires !IsUuid(req.memberId)
    ensures Validate(RequestBody(req)).Failure?
    ensures "memberId" in Validate(RequestBody(req)).error.fields
  {
  }

  /** Extra keys in the body change nothing. */
  lemma ValidateIgnoresExtraKeys(fields: map<string, Json>, key: string, v: Json)
    requires key != "memberId" && key != "questionId" && key != "isCorrect"
    ensures Validate(JObject(fields[key := v])) == Validate(JObject(fields))
  {

  }

  /** The responses of the handler. */
  datatype Response =
    | Updated
    | Unauthorized
    | BadRequest(details: ValidationError)
    | NotFound(memberId: string, questionId: string)
    | InternalError

  function StatusCode(r: Response): (code: int)
    ensures r.Updated? <==> code == 200
    ensures 200 <= code < 600
  {
    match r
    case Updated => 200
    case Unauthorized => 401
    case BadRequest(_) => 400
    case NotFound(_, _) => 404
    case InternalError => 500
  }

  /** `currentProgress.interval ?? 0`: NULL reads as 0, any stored number as itself. */
  function StoredInterval(p: Progress): (i: int)
    ensures p.interval.None? ==> i == DefaultInterval
    ensures p.interval.Some? ==> i == p.interval.value
  {
    if p.interval.Some? then p.interval.value else DefaultInterval
  }

  /** `currentProgress.easeFactor ?? 2.5`: NULL reads as 2.5, any stored number as itself. */
  function StoredEase(p: Progress): (e: int)
    ensures p.easeFactor.None? ==> e == DefaultEaseTenths
    ensures p.easeFactor.Some? ==> e == p.easeFactor.value
  {
    if p.easeFactor.Some? then p.easeFactor.value else DefaultEaseTenths
  }

  /** Both timestamps of an answer can be written: the review stamp `now` and the
      scheduler's due date lie in the range a `timestamp` column stores. */
  predicate Writable(s: Scheduler.Schedule, now: int) {
    Storable(now) && Scheduler.StorableDue(s)
  }

  /** The columns written for an answer to a record in state `p`: the status follows the
      answer alone, the review is stamped `now`, and the three scheduling columns are the
      scheduler's output for the stored interval and ease. `None` when a timestamp cannot
      be written: an Invalid Date makes `toISOString` throw, and a date after year 9999
      serialises to text the column rejects; either way nothing is written and the
      handler's catch answers 500. */
  function AnswerWrite(p: Progress, isCorrect: bool, now: Scheduler.Instant): (w: Option<ReviewWrite>)
    ensures w.None? <==> !Writable(Scheduler.Next(isCorrect, StoredInterval(p), StoredEase(p), now), now)
    ensures w.None? && Storable(now) ==> isCorrect
    ensures w.Some? ==> (w.value.status == Correct <==> isCorrect) && (w.value.status == Incorrect <==> !isCorrect)
    ensures w.Some? ==> w.value.lastReviewedAt == Some(now)
    ensures w.Some? ==> w.value.interval.Some? && w.value.easeFactor.Some? && w.value.nextReviewAt.Some?
    ensures w.Some? ==>
      Scheduler.Schedule(w.value.interval.value, w.value.easeFactor.value, w.value.nextReviewAt)
      == Scheduler.Next(isCorrect, StoredInterval(p), StoredEase(p), now)
    ensures w.Some? ==> -0x8000_0000 <= w.value.interval.value < 0x8000_0000
  {
    var s := Scheduler.Next(isCorrect, StoredInterval(p), StoredEase(p), now);
    Scheduler.ValidDueDateKeepsIntervalInt4(isCorrect, StoredInterval(p), StoredEase(p), now);
    if !Writable(s, now) then None
    else Some(ReviewWrite(if isCorrect then Correct else Incorrect, Some(now), s.nextReview,
                          Some(s.newInterval), Some(s.newEase)))
  }

  datatype Outcome = Outcome(response: Response, db: Db)

  /** The key a request looks up: both ids as the `uuid` columns compare them. */
  function MemberKey(req: UpdateRequest): string {
    CanonicalUuid(req.memberId)
  }

  function QuestionKey(req: UpdateRequest): string {
    CanonicalUuid(req.questionId)
  }

  /** The write an accepted request would make: the answer applied to the first keyed record. */
  function KeyedWrite(db: Db, req: UpdateRequest, now: Scheduler.Instant): Option<ReviewWrite>
    requires HasKey(db.progress, MemberKey(req), QuestionKey(req))
  {
    AnswerWrite(FindFirst(db.progress, MemberKey(req), QuestionKey(req)).value.progress, req.isCorrect, now)
  }

  /** The handler. `authenticated` is the outcome of the token check; `body` is the parsed
      JSON body, `None` when it does not parse (which the handler's catch turns into 500);
      `now` is the clock reading. Both lookups compare ids as uuids, so the case of their
      hexadecimal letters does not matter; the 404 message repeats the ids as sent. Error
      exits come in order 401, 500 (unparsable body), 400, 404, then 500 for a timestamp
      the table cannot hold, and none of them writes. */
  function Patch(authenticated: bool, body: Option<Json>, db: Db, now: Scheduler.Instant): (out: Outcome)
    ensures !authenticated ==> out == Outcome(Unauthorized, db)
    ensures authenticated && body.None? ==> out == Outcome(InternalError, db)
    ensures authenticated && body.Some? && Validate(body.value).Failure? ==>
      out == Outcome(BadRequest(Validate(body.value).error), db)
    ensures authenticated && body.Some? && Validate(body.value).Success? ==>
      var req := Validate(body.value).value;
      (!HasKey(db.progress, MemberKey(req), QuestionKey(req)) ==>
         out == Outcome(NotFound(req.memberId, req.questionId), db))
      && (HasKey(db.progress, MemberKey(req), QuestionKey(req)) && KeyedWrite(db, req, now).None? ==>
         out == Outcome(InternalError, db))
      && (HasKey(db.progress, MemberKey(req), QuestionKey(req)) && KeyedWrite(db, req, now).Some? ==>
         out.response == Updated)
    ensures out.response.Updated? <==>
      authenticated && body.Some? && Validate(body.value).Success?
      && HasKey(db.progress, MemberKey(Validate(body.value).value), QuestionKey(Validate(body.value).value))
      && KeyedWrite(db, Validate(body.value).value, now).Some?
    ensures !out.response.Updated? ==> out.db == db
    ensures out.db.members == db.members && out.db.questions == db.questions
    ensures Valid(db) ==> Valid(out.db)
  {
    if !authenticated then Outcome(Unauthorized, db)
    else if body.None? then Outcome(InternalError, db)
    else
      match Validate(body.value)
      case Failure(e) => Outcome(BadRequest(e), db)
      case Success(req) =>
        var m, q := MemberKey(req), QuestionKey(req);
        match FindFirst(db.progress, m, q)
        case None => Outcome(NotFound(req.memberId, req.questionId), db)
        case Some(row) =>
          match AnswerWrite(row.progress, req.isCorrect, now)
          case None => Outcome(InternalError, db)
          case Some(w) =>
            UpdateWhereKeepsValid(db, m, q, w);
            Outcome(Updated, db.(progress := UpdateWhere(db.progress, m, q, w)))
  }

  /** An answer to an existing record rewrites the one keyed row and nothing else: its
      status becomes correct exactly when the answer was, it is stamped as reviewed now,
      its scheduling columns come from the scheduler run on the stored values (NULL read as
      0 and 2.5), and its key and `correctStreak` are left alone. When a timestamp cannot be
      written (an Invalid Date, or a date after year 9999) the route answers 500 and the
      table is unchanged. */
  lemma PatchWritesOnlyKeyedRow(authenticated: bool, body: Option<Json>, db: Db, now: Scheduler.Instant, req: UpdateRequest, k: int)
    requires UniqueKeys(db.progress)
    requires authenticated && body.Some? && Validate(body.value) == Success(req)
    requires 0 <= k < |db.progress| && Keyed(db.progress[k], MemberKey(req), QuestionKey(req))
    ensures var out := Patch(authenticated, body, db, now);
      var before := db.progress[k].progress;
      var s := Scheduler.Next(req.isCorrect, StoredInterval(before), StoredEase(before), now);
      !Writable(s, now) ==> out == Outcome(InternalError, db)
    ensures var out := Patch(authenticated, body, db, now);
      var before := db.progress[k].progress;
      var after := out.db.progress[k].progress;
      var s := Scheduler.Next(req.isCorrect, StoredInterval(before), StoredEase(before), now);
      Writable(s, now) ==>
      && out.response == Updated
      && |out.db.progress| == |db.progress|
      && (forall i :: 0 <= i < |db.progress| && i != k ==> out.db.progress[i] == db.progress[i])
      && Keyed(out.db.progress[k], MemberKey(req), QuestionKey(req))
      && (after.status == Correct <==> req.isCorrect)
      && after.status != Unanswered
      && after.correctStreak == before.correctStreak
      && after.lastReviewedAt == Some(now)
      && after.nextReviewAt == s.nextReview
      && after.interval == Some(s.newInterval)
      && after.easeFactor == Some(s.newEase)
  {
  }

  /** The scheduling columns of a record are in the range the scheduler keeps them in
      (reading NULL as the default). */
  predicate RecordHealthy(p: Progress) {
    Scheduler.Healthy(StoredInterval(p), StoredEase(p))
  }

  predicate AllHealthy(rows: seq<Row>) {
    forall i :: 0 <= i < |rows| ==> RecordHealthy(rows[i].progress)
  }

  /** Every answer keeps every record's interval non-negative and its ease at least 1.3. */
  lemma PatchKeepsRecordsHealthy(authenticated: bool, body: Option<Json>, db: Db, now: Scheduler.Instant)
    requires AllHealthy(db.progress)
    ensures AllHealthy(Patch(authenticated, body, db, now).db.progress)
  {

  }

  /** The route is not idempotent: submitting the same correct answer twice (a retry
      after a lost response) lengthens the interval a second time, whenever both answers
      are recorded; an answer that is not recorded leaves the table as it was. */
  lemma RepeatedCorrectAnswerAdvancesTwice(db: Db, req: UpdateRequest, k: int, now1: Scheduler.Instant, now2: Scheduler.Instant)
    requires UniqueKeys(db.progress)
    requires IsUuid(req.memberId) && IsUuid(req.questionId) && req.isCorrect
    requires 0 <= k < |db.progress| && Keyed(db.progress[k], MemberKey(req), QuestionKey(req))
    requires RecordHealthy(db.progress[k].progress)
    ensures var first := Patch(true, Some(RequestBody(req)), db, now1);
      !first.response.Updated? ==> first.db == db
    ensures var first := Patch(true, Some(RequestBody(req)), db, now1);
      var second := Patch(true, Some(RequestBody(req)), first.db, now2);
      first.response.Updated? && second.response.Updated? ==>
      second.db.progress[k].progress.interval.value > first.db.progress[k].progress.interval.value
      > StoredInterval(db.progress[k].progress)
  {
    ValidateRequestBody(req);
    PatchWritesOnlyKeyedRow(true, Some(RequestBody(req)), db, now1, req, k);
    var w := AnswerWrite(db.progress[k].progress, true, now1);
    if w.Some? {
      UpdateWhereKeepsKeys(db.progress, MemberKey(req), QuestionKey(req), w.value);
    }
  }

  /** A record that has been answered correctly thirteen times in a row from the defaults
      (interval 2 038 878 days, ease 3.8) can no longer record a correct answer: every such
      request after 1970 answers 500 and leaves the table as it was, so the record stays
      in this state. */
  lemma LongStreakRecordIsStuck(db: Db, req: UpdateRequest, k: int, now: Scheduler.Instant)
    requires UniqueKeys(db.progress)
    requires IsUuid(req.memberId) && IsUuid(req.questionId) && req.isCorrect
    requires 0 <= k < |db.progress| && Keyed(db.progress[k], MemberKey(req), QuestionKey(req))
    requires db.progress[k].progress.interval == Some(2038878)
    requires db.progress[k].progress.easeFactor == Some(38)
    requires now >= 0
    ensures Patch(true, Some(RequestBody(req)), db, now) == Outcome(InternalError, db)
  {
    ValidateRequestBody(req);
    Scheduler.FourteenthHitIsNotStorable(now);
    PatchWritesOnlyKeyedRow(true, Some(RequestBody(req)), db, now, req, k);
  }

  /** Ids that differ only in the case of their hexadecimal letters name the same record:
      the two requests leave the table in the same state with the same status code. */
  lemma PatchIgnoresLetterCase(db: Db, req1: UpdateRequest, req2: UpdateRequest, now: Scheduler.Instant)
    requires IsUuid(req1.memberId) && IsUuid(req1.questionId)
    requires MemberKey(req1) == MemberKey(req2) && QuestionKey(req1) == QuestionKey(req2)
    requires req1.isCorrect == req2.isCorrect
    ensures Patch(true, Some(RequestBody(req1)), db, now).db == Patch(true, Some(RequestBody(req2)), db, now).db
    ensures StatusCode(Patch(true, Some(RequestBody(req1)), db, now).response)
      == StatusCode(Patch(true, Some(RequestBody(req2)), db, now).response)
  {
    CanonicalUuidKeepsShape(req1.memberId);
    CanonicalUuidKeepsShape(req1.questionId);
    CanonicalUuidKeepsShape(req2.memberId);
    CanonicalUuidKeepsShape(req2.questionId);
    ValidateRequestBody(req1);
    ValidateRequestBody(req2);
  }
}
