/** The `member_question_progress` table: one learning record per (member, question),
    its column defaults and nullability, the `progress_status` enum, the composite
    primary key and the cascading foreign keys. The two statements the progress route
    issues against it (find the first keyed row, update the keyed rows) are modelled, and
    so is how the table treats an insert of a record created elsewhere. */
module Schema {
  import opened Wrappers

  /** `progress_status`: a record is in exactly one of these three states. */
  datatype Status = Unanswered | Correct | Incorrect

  /** The label the database stores for a status. */
  function StatusName(st: Status): string {
    match st
    case Unanswered => "unanswered"
    case Correct => "correct"
    case Incorrect => "incorrect"
  }

  /** Reading a stored label back: the enum type admits the three labels and nothing else. */
  function ParseStatus(name: string): (r: Option<Status>)
    ensures r.Some? <==> name == "unanswered" || name == "correct" || name == "incorrect"
    ensures r.Some? ==> StatusName(r.value) == name
  {
    if name == "unanswered" then Some(Unanswered)
    else if name == "correct" then Some(Correct)
    else if name == "incorrect" then Some(Incorrect)
    else None
  }

  lemma StatusNameRoundTrip(st: Status)
    ensures ParseStatus(StatusName(st)) == Some(st)
  {
  }

  /** Column default of `interval`. */
  const DefaultInterval: int := 0
  /** Column default of `ease_factor`, in tenths (2.5). */
  const DefaultEaseTenths: int := 25
  /** Column default of `correct_streak`. */
  const DefaultStreak: int := 0

  /** The non-key columns of one record. Timestamps are instants in milliseconds;
      `easeFactor` is in tenths. `None` is SQL NULL. */
  datatype Progress = Progress(
    status: Status,
    lastReviewedAt: Option<int>,
    nextReviewAt: Option<int>,
    interval: Option<int>,
    easeFactor: Option<int>,
    correctStreak: int)

  /** One row: the composite key (member_id, question_id) and its record. The ids are
      held in the text form a `uuid` column reads back: hexadecimal digits in lower case. */
  datatype Row = Row(memberId: string, questionId: string, progress: Progress)

  /** A hexadecimal letter in lower case; every other character unchanged. */
  function LowerHexLetter(c: char): (d: char)
    ensures 'A' <= c <= 'F' ==> d as int == c as int + 32
    ensures !('A' <= c <= 'F') ==> d == c
  {
    if 'A' <= c <= 'F' then (c as int + 32) as char else c
  }

  /** The value a `uuid` column compares: an id written with upper-case hexadecimal
      letters names the same uuid as its lower-case spelling. */
  function CanonicalUuid(s: string): (r: string)
    ensures |r| == |s|
    ensures forall i :: 0 <= i < |s| ==> !('A' <= r[i] <= 'F')
    ensures forall i :: 0 <= i < |s| && !('A' <= s[i] <= 'F') ==> r[i] == s[i]
    ensures forall i :: 0 <= i < |s| && 'A' <= s[i] <= 'F' ==> r[i] as int == s[i] as int + 32
  {
    seq(|s|, i requires 0 <= i < |s| => LowerHexLetter(s[i]))
  }

  /** Two spellings name the same uuid exactly when they agree up to the case of A-F;
      the canonical text is its own canonical text. */
  lemma CanonicalUuidIsIdempotent(s: string)
    ensures CanonicalUuid(CanonicalUuid(s)) == CanonicalUuid(s)
  {
  }

  /** The first instant a `timestamp` column accepts from the driver, 0001-01-01T00:00:00.000Z,
      and the last, 9999-12-31T23:59:59.999Z. The driver sends `toISOString()`, which has
      a plain four-digit year only inside this window; outside it the year is signed and
      six digits long (or is year 0), which the column's input parser rejects. */
  const EarliestTimestampMs: int := -62_135_596_800_000
  const LatestTimestampMs: int := 253_402_300_799_999

  predicate Storable(t: int) {
    EarliestTimestampMs <= t <= LatestTimestampMs
  }

  /** The database state the progress table lives in: the existing member and
      question ids (the targets of its two foreign keys) and its rows, in storage order. */
  datatype Db = Db(members: set<string>, questions: set<string>, progress: seq<Row>)

  predicate Keyed(row: Row, memberId: string, questionId: string) {
    row.memberId == memberId && row.questionId == questionId
  }

  predicate SameKey(a: Row, b: Row) {
    a.memberId == b.memberId && a.questionId == b.questionId
  }

  /** The composite primary key: no two rows share (member_id, question_id). */
  predicate UniqueKeys(rows: seq<Row>) {
    forall i, j :: 0 <= i < j < |rows| ==> !SameKey(rows[i], rows[j])
  }

  predicate HasKey(rows: seq<Row>, memberId: string, questionId: string) {
    exists i :: 0 <= i < |rows| && Keyed(rows[i], memberId, questionId)
  }

  /** Both foreign keys hold: every row names an existing member and question. */
  predicate ReferencesValid(db: Db) {
    forall row :: row in db.progress ==> row.memberId in db.members && row.questionId in db.questions
  }

  /** What the database guarantees of the table at every commit. */
  predicate Valid(db: Db) {
    UniqueKeys(db.progress) && ReferencesValid(db)
  }

  /** With the primary key in force, at most one row answers to a key. */
  lemma AtMostOneRowPerKey(rows: seq<Row>, memberId: string, questionId: string, i: int, j: int)
    requires UniqueKeys(rows)
    requires 0 <= i < |rows| && 0 <= j < |rows|
    requires Keyed(rows[i], memberId, questionId) && Keyed(rows[j], memberId, questionId)
    ensures i == j
  {

  }

  // ---------------------------------------------------------------------------
  // Insert: column defaults and nullability
  // ---------------------------------------------------------------------------

  /** A column value in an INSERT: left out (the default applies), explicit NULL, or a value. */
  datatype Column<T> = Omitted | Null | Value(v: T)

  datatype NewRow = NewRow(
    memberId: string,
    questionId: string,
    status: Column<Status>,
    lastReviewedAt: Column<int>,
    nextReviewAt: Column<int>,
    interval: Column<int>,
    easeFactor: Column<int>,
    correctStreak: Column<int>)

  datatype DbError = NotNullViolation(column: string) | UniqueViolation | ForeignKeyViolation(column: string)

  /** A nullable column: omitted takes the default (possibly NULL), NULL stays NULL. */
  function Nullable<T>(c: Column<T>, default: Option<T>): (r: Option<T>)
    ensures c.Value? ==> r == Some(c.v)
    ensures c.Null? ==> r.None?
    ensures c.Omitted? ==> r == default
  {
    match c
    case Omitted => default
    case Null => None
    case Value(v) => Some(v)
  }

  /** A NOT NULL column with a default; only meaningful when the value is not NULL. */
  function NotNull<T>(c: Column<T>, default: T): (r: T)
    requires !c.Null?
    ensures c.Value? ==> r == c.v
    ensures c.Omitted? ==> r == default
  {
    if c.Value? then c.v else default
  }

  /** The row an INSERT stores once its columns are resolved against the defaults. */
  function Materialize(nr: NewRow): Row
    requires !nr.status.Null? && !nr.correctStreak.Null?
  {
    Row(nr.memberId, nr.questionId,
      Progress(
        NotNull(nr.status, Unanswered),
        Nullable(nr.lastReviewedAt, None),
        Nullable(nr.nextReviewAt, None),
        Nullable(nr.interval, Some(DefaultInterval)),
        Nullable(nr.easeFactor, Some(DefaultEaseTenths)),
        NotNull(nr.correctStreak, DefaultStreak)))
  }

  /** INSERT INTO member_question_progress: NOT NULL checks, then the primary key,
      then the two foreign keys. A failed insert leaves the table as it was. */
  function Insert(db: Db, nr: NewRow): (r: Result<Db, DbError>)
    ensures r.Success? <==>
      !nr.status.Null? && !nr.correctStreak.Null?
      && !HasKey(db.progress, nr.memberId, nr.questionId)
      && nr.memberId in db.members && nr.questionId in db.questions
    ensures r.Success? ==> r.value.members == db.members && r.value.questions == db.questions
    ensures r.Success? ==>
      (|r.value.progress| == |db.progress| + 1
       && r.value.progress[..|db.progress|] == db.progress
       && Keyed(r.value.progress[|db.progress|], nr.memberId, nr.questionId))
    ensures r.Success? && Valid(db) ==> Valid(r.value)
    ensures HasKey(db.progress, nr.memberId, nr.questionId) && !nr.status.Null? && !nr.correctStreak.Null?
      ==> r == Failure(UniqueViolation)
  {
    if nr.status.Null? then Failure(NotNullViolation("status"))
    else if nr.correctStreak.Null? then Failure(NotNullViolation("correct_streak"))
    else if HasKey(db.progress, nr.memberId, nr.questionId) then Failure(UniqueViolation)
    else if nr.memberId !in db.members then Failure(ForeignKeyViolation("member_id"))
    else if nr.questionId !in db.questions then Failure(ForeignKeyViolation("question_id"))
    else
      var rows := db.progress + [Materialize(nr)];
      assert UniqueKeys(db.progress) ==> UniqueKeys(rows) by {
        if UniqueKeys(db.progress) {
          forall i, j | 0 <= i < j < |rows| ensures !SameKey(rows[i], rows[j]) {
            if j == |db.progress| {
              assert !Keyed(db.progress[i], nr.memberId, nr.questionId);
            }
          }
        }
      }
      Success(db.(progress := rows))
  }

  /** An insert that names only the key yields a fresh record: unanswered, interval 0,
      ease 2.5, streak 0, never reviewed and never scheduled. */
  lemma FreshRecordDefaults(db: Db, memberId: string, questionId: string)
    requires memberId in db.members && questionId in db.questions
    requires !HasKey(db.progress, memberId, questionId)
    ensures var r := Insert(db, NewRow(memberId, questionId, Omitted, Omitted, Omitted, Omitted, Omitted, Omitted));
      r.Success?
      && var p := r.value.progress[|db.progress|].progress;
      p.status == Unanswered && p.interval == Some(0) && p.easeFactor == Some(25)
      && p.correctStreak == 0 && p.lastReviewedAt.None? && p.nextReviewAt.None?
  {
  }

  /** Explicit NULL is refused on the two NOT NULL columns and kept on the nullable ones. */
  lemma NullabilityOfColumns(db: Db, nr: NewRow)
    requires nr.memberId in db.members && nr.questionId in db.questions
    requires !HasKey(db.progress, nr.memberId, nr.questionId)
    ensures nr.status.Null? ==> Insert(db, nr) == Failure(NotNullViolation("status"))
    ensures !nr.status.Null? && nr.correctStreak.Null? ==> Insert(db, nr) == Failure(NotNullViolation("correct_streak"))
    ensures !nr.status.Null? && !nr.correctStreak.Null? && nr.interval.Null? && nr.easeFactor.Null?
      ==> var p := Insert(db, nr).value.progress[|db.progress|].progress;
          p.interval.None? && p.easeFactor.None?
  {
  }

  // ---------------------------------------------------------------------------
  // Lookup and update by key
  // ---------------------------------------------------------------------------

  /** `findFirst` with `memberId = m AND questionId = q`: the first keyed row, if any. */
  function FindFirst(rows: seq<Row>, memberId: string, questionId: string): (r: Option<Row>)
    ensures r.Some? <==> HasKey(rows, memberId, questionId)
    ensures r.Some? ==> Keyed(r.value, memberId, questionId)
    ensures r.Some? ==>
      exists k :: (0 <= k < |rows| && rows[k] == r.value
                   && forall j :: 0 <= j < k ==> !Keyed(rows[j], memberId, questionId))
  {
    if |rows| == 0 then None
    else if Keyed(rows[0], memberId, questionId) then
      Some(rows[0])
    else
      var r := FindFirst(rows[1..], memberId, questionId);
      assert HasKey(rows[1..], memberId, questionId) ==> HasKey(rows, memberId, questionId) by {
        if HasKey(rows[1..], memberId, questionId) {
          var i :| 0 <= i < |rows[1..]| && Keyed(rows[1..][i], memberId, questionId);
          assert rows[i + 1] == rows[1..][i];
        }
      }
      assert HasKey(rows, memberId, questionId) ==> HasKey(rows[1..], memberId, questionId) by {
        if HasKey(rows, memberId, questionId) {
          var i :| 0 <= i < |rows| && Keyed(rows[i], memberId, questionId);
          assert i > 0 && rows[1..][i - 1] == rows[i];
        }
      }
      if r.Some? then
        var k :| 0 <= k < |rows[1..]| && rows[1..][k] == r.value
          && forall j :: 0 <= j < k ==> !Keyed(rows[1..][j], memberId, questionId);
        assert rows[k + 1] == r.value;
        assert forall j :: 0 <= j < k + 1 ==> !Keyed(rows[j], memberId, questionId) by {
          forall j | 0 <= j < k + 1 ensures !Keyed(rows[j], memberId, questionId) {
            if j > 0 {
              assert rows[j] == rows[1..][j - 1];
            }
          }
        }
        r
      else
        r
  }

  /** The columns an answer writes: every column except the key and `correct_streak`. */
  datatype ReviewWrite = ReviewWrite(
    status: Status,
    lastReviewedAt: Option<int>,
    nextReviewAt: Option<int>,
    interval: Option<int>,
    easeFactor: Option<int>)

  /** A record after `.set(w)`: the written columns take their new values, the rest keep theirs. */
  function Assign(p: Progress, w: ReviewWrite): Progress {
    p.(status := w.status, lastReviewedAt := w.lastReviewedAt, nextReviewAt := w.nextReviewAt,
       interval := w.interval, easeFactor := w.easeFactor)
  }

  /** `UPDATE ... SET w WHERE memberId = m AND questionId = q`: every keyed row is
      rewritten, every other row and the order of rows are untouched. */
  function UpdateWhere(rows: seq<Row>, memberId: string, questionId: string, w: ReviewWrite): (r: seq<Row>)
    ensures |r| == |rows|
    ensures forall i :: 0 <= i < |rows| && !Keyed(rows[i], memberId, questionId) ==> r[i] == rows[i]
    ensures forall i :: 0 <= i < |rows| && Keyed(rows[i], memberId, questionId) ==>
      r[i] == rows[i].(progress := Assign(rows[i].progress, w))
  {
    if |rows| == 0 then []
    else
      var head := if Keyed(rows[0], memberId, questionId) then rows[0].(progress := Assign(rows[0].progress, w)) else rows[0];
      [head] + UpdateWhere(rows[1..], memberId, questionId, w)
  }

  /** Under the primary key the update is a point update of the one keyed row. */
  lemma UpdateWhereIsPointUpdate(rows: seq<Row>, memberId: string, questionId: string, w: ReviewWrite, k: int)
    requires UniqueKeys(rows)
    requires 0 <= k < |rows| && Keyed(rows[k], memberId, questionId)
    ensures UpdateWhere(rows, memberId, questionId, w) == rows[k := rows[k].(progress := Assign(rows[k].progress, w))]
  {

  }

  /** An update never touches key columns, so the primary key still holds afterwards. */
  lemma UpdateWhereKeepsKeys(rows: seq<Row>, memberId: string, questionId: string, w: ReviewWrite)
    ensures var r := UpdateWhere(rows, memberId, questionId, w);
      forall i :: 0 <= i < |rows| ==> SameKey(r[i], rows[i])
    ensures UniqueKeys(rows) ==> UniqueKeys(UpdateWhere(rows, memberId, questionId, w))
  {

  }

  /** ... and every row still names an existing member and question. */
  lemma UpdateWhereKeepsValid(db: Db, memberId: string, questionId: string, w: ReviewWrite)
    ensures Valid(db) ==> Valid(db.(progress := UpdateWhere(db.progress, memberId, questionId, w)))
  {

  }

  // ---------------------------------------------------------------------------
  // Cascading deletes
  // ---------------------------------------------------------------------------

  /** The rows for which `keep` holds, in their original order. */
  function Filter(rows: seq<Row>, keep: Row -> bool): (r: seq<Row>)
    ensures |r| <= |rows|
    ensures forall row :: row in r <==> row in rows && keep(row)
  {
    if |rows| == 0 then []
    else if keep(rows[0]) then [rows[0]] + Filter(rows[1..], keep)
    else Filter(rows[1..], keep)
  }

  lemma {:induction false} FilterKeepsUniqueKeys(rows: seq<Row>, keep: Row -> bool)
    requires UniqueKeys(rows)
    ensures UniqueKeys(Filter(rows, keep))
  {
    if |rows| > 0 {
      var rest := rows[1..];
      assert UniqueKeys(rest) by {
        forall i, j | 0 <= i < j < |rest| ensures !SameKey(rest[i], rest[j]) {
          assert rest[i] == rows[i + 1] && rest[j] == rows[j + 1];
        }
      }
      FilterKeepsUniqueKeys(rest, keep);
      if keep(rows[0]) {
        var f := Filter(rows, keep);
        var tail := Filter(rest, keep);
        assert f == [rows[0]] + tail;
        forall i, j | 0 <= i < j < |f| ensures !SameKey(f[i], f[j]) {
          if i == 0 {
            assert f[j] == tail[j - 1];
            assert f[j] in rest;
            var m :| 0 <= m < |rest| && rest[m] == f[j];
            assert rows[m + 1] == f[j];
          } else {
            assert f[i] == tail[i - 1] && f[j] == tail[j - 1];
          }
        }
      }
    }
  }

  /** Deleting a member deletes every progress record of that member (ON DELETE CASCADE). */
  function DeleteMember(db: Db, memberId: string): (r: Db)
    ensures r.members == db.members - {memberId} && r.questions == db.questions
    ensures forall row :: row in r.progress <==> row in db.progress && row.memberId != memberId
    ensures Valid(db) ==> Valid(r)
  {
    var r := Db(db.members - {memberId}, db.questions, Filter(db.progress, (row: Row) => row.memberId != memberId));
    if Valid(db) then FilterKeepsUniqueKeys(db.progress, (row: Row) => row.memberId != memberId); r else r
  }

  /** Deleting a question deletes every progress record of that question (ON DELETE CASCADE). */
  function DeleteQuestion(db: Db, questionId: string): (r: Db)
    ensures r.questions == db.questions - {questionId} && r.members == db.members
    ensures forall row :: row in r.progress <==> row in db.progress && row.questionId != questionId
    ensures Valid(db) ==> Valid(r)
  {
    var r := Db(db.members, db.questions - {questionId}, Filter(db.progress, (row: Row) => row.questionId != questionId));
    if Valid(db) then FilterKeepsUniqueKeys(db.progress, (row: Row) => row.questionId != questionId); r else r
  }
}
