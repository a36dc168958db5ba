/** The flash-card practice screen: a round over a question list, one current question,
    a "check answer" reveal and mastered / not-mastered feedback that is sent to the
    progress route before the round moves on. Random draws are the explicit index
    `pick`; the request is split into its start and its completion. */
module Familiarize {
  import opened Wrappers
  import opened Client
  import ProgressRoute

  datatype Session = Session(unmarked: seq<Question>, current: Option<Question>, answerShown: bool, loading: bool)

  /** An answer on its way to the server, with what the handler's closure captured:
      the question answered and the round's list at the time. */
  datatype InFlight = InFlight(sent: Sent, question: Question, unmarked: seq<Question>)

  datatype Begun = Begun(session: Session, request: Option<InFlight>)

  datatype Completed = Completed(session: Session, refresh: bool)

  /** The three buttons under a card. */
  datatype Button = Mastered | CheckAnswer | NotMastered

  /** The screen before its load effect runs: an empty round with no card, so no button
      can be pressed yet. */
  function Mount(): (s: Session)
    ensures s.unmarked == [] && s.current.None?
    ensures !s.answerShown && !s.loading
    ensures forall b :: !Enabled(s, b)
  {
    Session([], None, false, false)
  }

  /** The load effect: a new list restarts the round with all of it and draws the current
      question from it (none when it is empty). */
  function QuestionsChanged(s: Session, all: seq<Question>, pick: nat): (s': Session)
    requires |all| > 0 ==> pick < |all|
    ensures s'.unmarked == all
    ensures s'.current.None? <==> |all| == 0
    ensures s'.current.Some? ==> s'.current.value in all
    ensures s'.answerShown == s.answerShown && s'.loading == s.loading
  {
    s.(unmarked := all, current := if |all| > 0 then Some(all[pick]) else None)
  }

  /** `showNextQuestion`: hide the answer, drop every question with the answered id from
      the list, and draw the next current question from what is left. */
  function ShowNextQuestion(s: Session, unmarked: seq<Question>, answeredId: string, pick: nat): (s': Session)
    requires |RemoveId(unmarked, answeredId)| > 0 ==> pick < |RemoveId(unmarked, answeredId)|
    ensures !s'.answerShown && s'.loading == s.loading
    ensures forall q :: q in s'.unmarked <==> q in unmarked && q.id != answeredId
    ensures |s'.unmarked| <= |unmarked|
    ensures s'.current.None? <==> |s'.unmarked| == 0
    ensures s'.current.Some? ==> s'.current.value in s'.unmarked && s'.current.value.id != answeredId
  {
    var remaining := RemoveId(unmarked, answeredId);
    Session(remaining, if |remaining| > 0 then Some(remaining[pick]) else None, false, s.loading)
  }

  /** The start of `handleFeedback`: nothing happens without a current question or while
      a request is in flight; missing credentials abort with loading cleared and no
      request; otherwise the answer is sent and the screen waits. */
  function BeginFeedback(s: Session, isCorrect: bool, memberId: Stored, token: Stored): (b: Begun)
    ensures s.current.None? || s.loading ==> b == Begun(s, None)
    ensures s.current.Some? && !s.loading && !(Present(memberId) && Present(token)) ==>
      b == Begun(s.(loading := false), None)
    ensures b.request.Some? <==> s.current.Some? && !s.loading && Present(memberId) && Present(token)
    ensures b.request.Some? ==>
      && b.session == s.(loading := true)
      && b.request.value.question == s.current.value
      && b.request.value.unmarked == s.unmarked
      && b.request.value.sent.body == ProgressRoute.UpdateRequest(memberId.value, s.current.value.id, isCorrect)
  {
    if s.current.None? || s.loading then Begun(s, None)
    else
      match ProgressRequest(memberId, token, s.current.value, isCorrect)
      case None => Begun(s.(loading := false), None)
      case Some(sent) => Begun(s.(loading := true), Some(InFlight(sent, s.current.value, s.unmarked)))
  }

  /** The end of `handleFeedback`. Any HTTP response, success or not, refreshes the review
      list and removes the answered question from the round, whether it was answered right
      or wrong; a network failure leaves the round where it was. Loading is cleared either way. */
  function FinishFeedback(s: Session, f: InFlight, outcome: FetchOutcome, pick: nat): (c: Completed)
    requires var rest := RemoveId(f.unmarked, f.question.id); |rest| > 0 ==> pick < |rest|
    ensures !c.session.loading
    ensures c.refresh <==> outcome.Responded?
    ensures outcome.NetworkError? ==> c.session == s.(loading := false)
    ensures outcome.Responded? ==>
      && !c.session.answerShown
      && (forall q :: q in c.session.unmarked ==> q in f.unmarked && q.id != f.question.id)
      && |c.session.unmarked| <= |f.unmarked|
      && (c.session.current.None? <==> |c.session.unmarked| == 0)
  {
    match outcome
    case NetworkError => Completed(s.(loading := false), false)
    case Responded(_) =>
      Completed(ShowNextQuestion(s, f.unmarked, f.question.id, pick).(loading := false), true)
  }

  /** Which buttons can be pressed: the feedback buttons only once the answer is shown,
      the reveal only before; none while loading, and none without a card. */
  predicate Enabled(s: Session, b: Button)
    ensures Enabled(s, b) ==> s.current.Some? && !s.loading
    ensures Enabled(s, b) ==> (b == CheckAnswer <==> !s.answerShown)
    ensures s.current.Some? && !s.loading && (b == CheckAnswer <==> !s.answerShown) ==> Enabled(s, b)
  {
    s.current.Some? && !s.loading
    && match b
       case CheckAnswer => !s.answerShown
       case Mastered => s.answerShown
       case NotMastered => s.answerShown
  }

  /** Pressing a button: a disabled button does nothing; the reveal shows the answer;
      the two feedback buttons start `handleFeedback`. */
  function Press(s: Session, b: Button, memberId: Stored, token: Stored): (r: Begun)
    ensures !Enabled(s, b) ==> r == Begun(s, None)
    ensures Enabled(s, b) && b == CheckAnswer ==> r == Begun(s.(answerShown := true), None)
    ensures Enabled(s, b) && b != CheckAnswer ==> r == BeginFeedback(s, b == Mastered, memberId, token)
    ensures r.request.Some? ==>
      s.answerShown && r.request.value.question == s.current.value
      && r.request.value.sent.body.isCorrect == (b == Mastered)
  {
    if !Enabled(s, b) then Begun(s, None)
    else match b
      case CheckAnswer => Begun(s.(answerShown := true), None)
      case Mastered => BeginFeedback(s, true, memberId, token)
      case NotMastered => BeginFeedback(s, false, memberId, token)
  }

  /** No feedback reaches the server for a card whose answer has not been revealed. */
  lemma FeedbackNeedsRevealedAnswer(s: Session, b: Button, memberId: Stored, token: Stored)
    requires b != CheckAnswer && !s.answerShown
    ensures Press(s, b, memberId, token) == Begun(s, None)
  {
  }

  /** A revealed card with credentials sends exactly one request; pressing again while it
      is in flight sends nothing. */
  lemma OneRequestAtATime(s: Session, b: Button, b2: Button, memberId: Stored, token: Stored)
    requires b != CheckAnswer && Enabled(s, b) && Present(memberId) && Present(token)
    ensures var first := Press(s, b, memberId, token);
      first.request.Some?
      && first.request.value.sent.body.isCorrect == (b == Mastered)
      && Press(first.session, b2, memberId, token) == Begun(first.session, None)
  {
  }

  /** After the round moves on, the next card starts hidden, so its feedback buttons are
      disabled until it is revealed again. */
  lemma NextCardStartsHidden(s: Session, f: InFlight, ok: bool, pick: nat, b: Button)
    requires var rest := RemoveId(f.unmarked, f.question.id); |rest| > 0 ==> pick < |rest|
    requires b != CheckAnswer
    ensures !Enabled(FinishFeedback(s, f, Responded(ok), pick).session, b)
  {
  }

  /** A full answer cycle from a revealed card: with distinct ids the round shrinks by
      exactly the answered card, and the answered card is never drawn again in it. */
  lemma AnswerShrinksRoundByOne(s: Session, b: Button, memberId: Stored, token: Stored, ok: bool, pick: nat)
    requires b != CheckAnswer && Enabled(s, b) && Present(memberId) && Present(token)
    requires s.current.value in s.unmarked && UniqueIds(s.unmarked)
    requires var f := Press(s, b, memberId, token).request.value;
      var rest := RemoveId(f.unmarked, f.question.id); |rest| > 0 ==> pick < |rest|
    ensures var begun := Press(s, b, memberId, token);
      var done := FinishFeedback(begun.session, begun.request.value, Responded(ok), pick).session;
      |done.unmarked| == |s.unmarked| - 1
      && s.current.value !in done.unmarked
      && (done.current.Some? ==> done.current.value.id != s.current.value.id)
  {
    var k :| 0 <= k < |s.unmarked| && s.unmarked[k] == s.current.value;
    RemoveListedIdDropsOne(s.unmarked, k);
  }
}
