/** The quiz page: it loads the full and the due-for-review lists of a bank, chooses the
    screen to show from the main mode, the practice sub-mode and the bank mode, shows
    the review-count badge, and refreshes the review list after answers. */
module QuizClient {
  import opened Wrappers
  import opened Client
  import Familiarize
  import Poetry

  datatype MainMode = Practice | BuzzerMode
  datatype SubMode = All | Review
  datatype BankMode = Standard | PoetryPair
  datatype LoadState = Loading | Failed | Loaded

  datatype Page = Page(main: MainMode, sub: SubMode, bank: BankMode,
                       all: seq<Question>, review: seq<Question>,
                       load: LoadState, error: Option<string>)

  /** One reply of `/api/get-questions`: a successful body with the bank mode and its
      questions, an error status with the body's optional `error` text, or a failed fetch. */
  datatype ListReply = Lists(mode: BankMode, questions: seq<Question>) | HttpError(error: Option<string>) | NetworkFailure(message: string)

  const MissingCredentials: string := "认证信息丢失，请重新登录。"
  const ListFetchFailed: string := "获取题目列表失败"

  /** The page before its first load: practice mode over all questions of a standard
      bank, with nothing loaded, so only the spinner shows and no badge. */
  function Mount(): (p: Page)
    ensures p.main == Practice && p.sub == All && p.bank == Standard
    ensures p.all == [] && p.review == [] && p.error.None?
    ensures Render(p).Spinner? && ReviewBadge(p).None?
  {
    Page(Practice, All, Standard, [], [], Loading, None)
  }

  /** The start of `fetchLists`: back to loading with no error; without both credentials
      the page fails at once and nothing is fetched. The result's flag says whether the
      two list requests go out. */
  function BeginLoad(p: Page, token: Stored, memberId: Stored): (r: (Page, bool))
    ensures r.1 <==> Present(token) && Present(memberId)
    ensures r.1 ==> r.0 == p.(load := Loading, error := None)
    ensures !r.1 ==> r.0 == p.(load := Failed, error := Some(MissingCredentials))
  {
    if !Present(token) || !Present(memberId) then (p.(load := Failed, error := Some(MissingCredentials)), false)
    else (p.(load := Loading, error := None), true)
  }

  /** The message `fetchLists` reports for a failed reply: an error status reports the
      body's `error` text, or the generic text when it is missing or empty; a rejected
      fetch reports its own message. */
  function FailureMessage(reply: ListReply): (m: string)
    requires !reply.Lists?
    ensures reply.HttpError? ==> m != ""
    ensures reply.HttpError? && reply.error.Some? && reply.error.value != "" ==> m == reply.error.value
    ensures reply.HttpError? && (reply.error.None? || reply.error.value == "") ==> m == ListFetchFailed
    ensures reply.NetworkFailure? ==> m == reply.message
  {
    match reply
    case HttpError(e) => if e.Some? && e.value != "" then e.value else ListFetchFailed
    case NetworkFailure(m) => m
  }

  /** The end of `fetchLists`: both lists and the bank mode on success. A rejected fetch
      makes `Promise.all` reject, so its message wins before any status is looked at (the
      full-list one when both reject); otherwise an error status fails the page with the
      full-list reply's message if that one failed, else the review reply's. A failed page
      keeps its lists. */
  function FinishLoad(p: Page, allReply: ListReply, reviewReply: ListReply): (r: Page)
    ensures r.load.Loaded? <==> allReply.Lists? && reviewReply.Lists?
    ensures r.load.Loaded? ==>
      r == p.(bank := allReply.mode, all := allReply.questions, review := reviewReply.questions, load := Loaded)
    ensures !r.load.Loaded? ==> r.load.Failed? && r.error.Some? && r.all == p.all && r.review == p.review
    ensures allReply.NetworkFailure? ==> r == p.(load := Failed, error := Some(allReply.message))
    ensures !allReply.NetworkFailure? && reviewReply.NetworkFailure? ==>
      r == p.(load := Failed, error := Some(reviewReply.message))
    ensures allReply.HttpError? && !reviewReply.NetworkFailure? ==>
      r == p.(load := Failed, error := Some(FailureMessage(allReply)))
    ensures allReply.Lists? && reviewReply.HttpError? ==>
      r == p.(load := Failed, error := Some(FailureMessage(reviewReply)))
    ensures r.main == p.main && r.sub == p.sub
  {
    if allReply.NetworkFailure? then p.(load := Failed, error := Some(allReply.message))
    else if reviewReply.NetworkFailure? then p.(load := Failed, error := Some(reviewReply.message))
    else if allReply.HttpError? then p.(load := Failed, error := Some(FailureMessage(allReply)))
    else if reviewReply.HttpError? then p.(load := Failed, error := Some(FailureMessage(reviewReply)))
    else p.(bank := allReply.mode, all := allReply.questions, review := reviewReply.questions, load := Loaded)
  }

  /** The list the practice screens work on. */
  function CurrentQuestions(p: Page): (qs: seq<Question>)
    ensures p.sub == All ==> qs == p.all
    ensures p.sub == Review ==> qs == p.review
  {
    if p.sub == All then p.all else p.review
  }

  /** What `renderContent` shows. */
  datatype Screen =
    | Spinner
    | ErrorScreen(message: Option<string>)
    | NothingToReview
    | EmptyBank
    | PoetryScreen(questions: seq<Question>, sub: SubMode)
    | FlashCardScreen(questions: seq<Question>, sub: SubMode)
    | BuzzerEmpty
    | BuzzerScreen(questions: seq<Question>)

  /** The decision table of `renderContent`, checked in this order: loading, error, then in
      practice mode no review due, an empty list, and the poem or flash-card screen by the
      bank mode; in buzzer mode an empty bank or the buzzer round over the full list. */
  function Render(p: Page): (s: Screen)
    ensures s.Spinner? <==> p.load == Loading
    ensures s.ErrorScreen? <==> p.load == Failed
    ensures s.ErrorScreen? ==> s.message == p.error
    ensures s.NothingToReview? <==> p.load.Loaded? && p.main == Practice && p.sub == Review && |p.review| == 0
    ensures s.EmptyBank? <==> p.load.Loaded? && p.main == Practice && p.sub == All && |p.all| == 0
    ensures s.PoetryScreen? <==>
      p.load.Loaded? && p.main == Practice && |CurrentQuestions(p)| > 0 && p.bank == PoetryPair
    ensures s.FlashCardScreen? <==>
      p.load.Loaded? && p.main == Practice && |CurrentQuestions(p)| > 0 && p.bank.Standard?
    ensures (s.PoetryScreen? || s.FlashCardScreen?) ==> s.questions == CurrentQuestions(p) && s.sub == p.sub
    ensures s.BuzzerEmpty? <==> p.load.Loaded? && p.main.BuzzerMode? && |p.all| == 0
    ensures s.BuzzerScreen? <==> p.load.Loaded? && p.main.BuzzerMode? && |p.all| > 0
    ensures s.BuzzerScreen? ==> s.questions == p.all
  {
    if p.load == Loading then Spinner
    else if p.load == Failed then ErrorScreen(p.error)
    else if p.main == Practice then
      if p.sub == Review && |p.review| == 0 then NothingToReview
      else if |CurrentQuestions(p)| == 0 then EmptyBank
      else if p.bank == PoetryPair then PoetryScreen(CurrentQuestions(p), p.sub)
      else FlashCardScreen(CurrentQuestions(p), p.sub)
    else if |p.all| == 0 then BuzzerEmpty
    else BuzzerScreen(p.all)
  }

  /** The buzzer round always plays the full list: the practice sub-mode and the review
      list make no difference to it. */
  lemma BuzzerIgnoresSubMode(p: Page, sub: SubMode, review: seq<Question>)
    requires p.main == BuzzerMode
    ensures Render(p.(sub := sub, review := review)) == Render(p)
  {
  }

  /** While a load is pending nothing but the spinner shows, whatever else the page holds. */
  lemma LoadingHidesEverything(p: Page)
    ensures Render(p.(load := Loading)) == Spinner
  {
  }

  /** The badge text for `n` questions due: none at 0, the count up to 9, then "9+". */
  function BadgeText(n: nat): (r: Option<string>)
    ensures r.None? <==> n == 0
    ensures n > 9 <==> r == Some("9+")
    ensures 1 <= n <= 9 ==> r.Some? && |r.value| == 1 && r.value[0] as int - '0' as int == n
    ensures r.Some? ==> 1 <= |r.value| <= 2
  {
    if n == 0 then None
    else if n > 9 then Some("9+")
    else Some([('0' as int + n) as char])
  }

  /** The badge beside the review tab, which exists only in practice mode. */
  function ReviewBadge(p: Page): (r: Option<string>)
    ensures r.Some? <==> p.main == Practice && |p.review| > 0
    ensures r.Some? ==> r == BadgeText(|p.review|)
  {
    if p.main == Practice then BadgeText(|p.review|) else None
  }

  /** The badge tells every count from 1 to 9 apart, and from any count above 9. */
  lemma BadgeDistinguishesSmallCounts(m: nat, n: nat)
    requires 1 <= m <= 9 && 1 <= n <= 9 && m != n
    ensures BadgeText(m) != BadgeText(n)
    ensures forall k: nat :: k > 9 ==> BadgeText(k) != BadgeText(m)
  {
  }

  /** `handleProgressUpdate` sends its request only when both credentials are present. */
  function BeginRefresh(token: Stored, memberId: Stored): (fetches: bool)
    ensures fetches ==> Present(token) && Present(memberId)
    ensures Present(token) && Present(memberId) ==> fetches
  {
    Present(token) && Present(memberId)
  }

  /** The review list `handleProgressUpdate` assigns as written: it reads `data.questions`
      from whatever body comes back, without looking at the status. `None` stands for the
      `undefined` an error body yields. */
  function RefreshAsWritten(review: seq<Question>, reply: ListReply): (r: Option<seq<Question>>)
    ensures reply.Lists? ==> r == Some(reply.questions)
    ensures reply.NetworkFailure? ==> r == Some(review)
  {
    match reply
    case Lists(_, qs) => Some(qs)
    case HttpError(_) => None
    case NetworkFailure(_) => Some(review)
  }

  /** An error reply (an expired token gives 401) leaves the review list undefined, and the
      next render reads its length. */
  lemma RefreshAsWrittenLosesReviewList(review: seq<Question>, error: Option<string>)
    ensures RefreshAsWritten(review, HttpError(error)).None?
  {
  }

  /** The background refresh as intended: a successful reply replaces the review list and
      nothing else (the bank mode in particular stays); any failure leaves the page alone. */
  function FinishRefresh(p: Page, reply: ListReply): (r: Page)
    ensures r.main == p.main && r.sub == p.sub && r.bank == p.bank && r.all == p.all
      && r.load == p.load && r.error == p.error
    ensures reply.Lists? ==> r.review == reply.questions
    ensures !reply.Lists? ==> r == p
    ensures RefreshAsWritten(p.review, reply).Some? ==> Some(r.review) == RefreshAsWritten(p.review, reply)
  {
    if reply.Lists? then p.(review := reply.questions) else p
  }

  /** The two practice screens trigger that refresh differently: the flash cards after any
      HTTP response, the poem cards after a successful one only. */
  lemma RefreshTriggersDiffer(fs: Familiarize.Session, f: Familiarize.InFlight, pick: nat)
    requires var rest := RemoveId(f.unmarked, f.question.id); |rest| > 0 ==> pick < |rest|
    ensures Familiarize.FinishFeedback(fs, f, Responded(false), pick).refresh
    ensures !Poetry.Refreshes(Responded(false))
    ensures Poetry.Refreshes(Responded(true)) && Familiarize.FinishFeedback(fs, f, Responded(true), pick).refresh
  {
  }
}
