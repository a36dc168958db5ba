/** The poem-pairing practice screen: like the flash cards, but each card is shown
    from a random side, and feedback is optimistic: the round moves on at once and the
    progress request runs in the background. Random draws are the explicit `pick` and
    `coin`. */
module Poetry {
  import opened Wrappers
  import opened Client
  import ProgressRoute

  datatype Session = Session(unmarked: seq<Question>, current: Option<Question>, answerShown: bool, contentIsPrompt: bool)

  datatype Answered = Answered(session: Session, sent: Option<Sent>)

  /** The screen before its effect runs: no card and no round yet, the answer hidden, and
      the question text as the prompt side. */
  function Mount(): (s: Session)
    ensures s.unmarked == [] && s.current.None?
    ensures !s.answerShown && s.contentIsPrompt
  {
    Session([], None, false, true)
  }

  /** `showNextQuestion(list)`: draw a card and a side from `list`, or none when it is
      empty; the answer is hidden in both cases. The round list itself is not touched. */
  function ShowNextQuestion(s: Session, list: seq<Question>, pick: nat, coin: bool): (s': Session)
    requires |list| > 0 ==> pick < |list|
    ensures !s'.answerShown && s'.unmarked == s.unmarked
    ensures s'.current.None? <==> |list| == 0
    ensures s'.current.Some? ==> s'.current.value in list && s'.contentIsPrompt == coin
    ensures |list| == 0 ==> s'.contentIsPrompt == s.contentIsPrompt
  {
    if |list| > 0 then s.(current := Some(list[pick]), contentIsPrompt := coin, answerShown := false)
    else s.(current := None, answerShown := false)
  }

  /** `startRound`: the round is the whole list again, and a card is drawn from it. */
  function StartRound(s: Session, all: seq<Question>, pick: nat, coin: bool): (s': Session)
    requires |all| > 0 ==> pick < |all|
    ensures s'.unmarked == all && !s'.answerShown
    ensures s'.current.None? <==> |all| == 0
    ensures s'.current.Some? ==> s'.current.value in all
  {
    ShowNextQuestion(s.(unmarked := all), all, pick, coin)
  }

  /** `handleShowAnswer`: the hidden line of the card appears; the card, its side and
      the round stay as they are. */
  function ShowAnswer(s: Session): (s': Session)
    ensures s'.answerShown
    ensures s'.current == s.current && s'.contentIsPrompt == s.contentIsPrompt
    ensures s'.unmarked == s.unmarked
  {
    s.(answerShown := true)
  }

  /** `handleFeedback`: with no card it does nothing. Otherwise the card's id leaves the
      round and the next card is drawn first, whatever the credentials; then the progress
      request is sent in the background only when both credentials are present. */
  function Feedback(s: Session, isCorrect: bool, pick: nat, coin: bool, memberId: Stored, token: Stored): (a: Answered)
    requires s.current.Some? ==> var rest := RemoveId(s.unmarked, s.current.value.id); |rest| > 0 ==> pick < |rest|
    ensures s.current.None? ==> a == Answered(s, None)
    ensures s.current.Some? ==>
      && (forall q :: q in a.session.unmarked <==> q in s.unmarked && q.id != s.current.value.id)
      && !a.session.answerShown
      && (a.session.current.None? <==> |a.session.unmarked| == 0)
      && (a.session.current.Some? ==> a.session.current.value in a.session.unmarked)
    ensures a.sent.Some? <==> s.current.Some? && Present(memberId) && Present(token)
    ensures a.sent.Some? ==>
      a.sent.value.body == ProgressRoute.UpdateRequest(memberId.value, s.current.value.id, isCorrect)
  {
    if s.current.None? then Answered(s, None)
    else
      var remaining := RemoveId(s.unmarked, s.current.value.id);
      var s' := ShowNextQuestion(s.(unmarked := remaining), remaining, pick, coin);
      Answered(s', ProgressRequest(memberId, token, s.current.value, isCorrect))
  }

  /** The background request's completion: the review list is refreshed only on a 2xx
      response; an error status or a network failure is only logged. */
  function Refreshes(outcome: FetchOutcome): (refresh: bool)
    ensures refresh ==> outcome.Responded?
    ensures outcome.Responded? && !outcome.ok ==> !refresh
    ensures outcome == Responded(true) ==> refresh
  {
    outcome.Responded? && outcome.ok
  }

  /** Optimistic feedback: what the screen shows next does not depend on the answer given
      or on whether the request can be sent at all. */
  lemma FeedbackAdvancesRegardless(s: Session, pick: nat, coin: bool,
                                   c1: bool, m1: Stored, t1: Stored, c2: bool, m2: Stored, t2: Stored)
    requires s.current.Some? ==> var rest := RemoveId(s.unmarked, s.current.value.id); |rest| > 0 ==> pick < |rest|
    ensures Feedback(s, c1, pick, coin, m1, t1).session == Feedback(s, c2, pick, coin, m2, t2).session
  {
  }

  /** With distinct ids every answered card shrinks the round by exactly one, so a round
      of `n` cards ends after `n` answers. */
  lemma FeedbackShrinksRoundByOne(s: Session, isCorrect: bool, pick: nat, coin: bool, memberId: Stored, token: Stored)
    requires s.current.Some? && s.current.value in s.unmarked && UniqueIds(s.unmarked)
    requires var rest := RemoveId(s.unmarked, s.current.value.id); |rest| > 0 ==> pick < |rest|
    ensures |Feedback(s, isCorrect, pick, coin, memberId, token).session.unmarked| == |s.unmarked| - 1
  {
    var k :| 0 <= k < |s.unmarked| && s.unmarked[k] == s.current.value;
    RemoveListedIdDropsOne(s.unmarked, k);
  }
}
