/** The buzzer round: questions are drawn one at a time from the ones not yet played,
    typed out a character per tick, and revealed in full when the player buzzes. The
    random draw is the explicit index `pick`; each timer tick is an explicit event. */
module Buzzer {
  import opened Wrappers
  import opened Client

  datatype GameState = Idle | Displaying | Answered | Finished

  /** A UTF-16 code unit: what JavaScript's `length` counts and `substring` cuts. */
  newtype CodeUnit = u: int | 0 <= u < 0x1_0000

  /** The UTF-16 encoding of one character: itself inside the Basic Multilingual Plane,
      a high and a low surrogate outside it. */
  function CharUnits(c: char): (u: seq<CodeUnit>)
    ensures c as int < 0x1_0000 ==> u == [c as int as CodeUnit]
    ensures c as int >= 0x1_0000 ==> |u| == 2 && 0xD800 <= u[0] < 0xDC00 && 0xDC00 <= u[1] < 0xE000
    ensures c as int >= 0x1_0000 ==>
      c as int == 0x1_0000 + (u[0] as int - 0xD800) * 0x400 + (u[1] as int - 0xDC00)
  {
    var v := c as int;
    if v < 0x1_0000 then [v as CodeUnit]
    else [(0xD800 + (v - 0x1_0000) / 0x400) as CodeUnit, (0xDC00 + (v - 0x1_0000) % 0x400) as CodeUnit]
  }

  /** The UTF-16 form of a JavaScript string, character by character. */
  function Utf16(s: string): (u: seq<CodeUnit>)
    ensures |u| >= |s|
    ensures |s| > 0 ==> CharUnits(s[0]) <= u
  {
    if |s| == 0 then [] else CharUnits(s[0]) + Utf16(s[1..])
  }

  /** Text inside the Basic Multilingual Plane has one code unit per character, each the
      character's own code. */
  lemma {:induction false} BmpTextIsOneUnitPerChar(s: string)
    requires forall i :: 0 <= i < |s| ==> s[i] as int < 0x1_0000
    ensures |Utf16(s)| == |s|
    ensures forall i :: 0 <= i < |s| ==> Utf16(s)[i] as int == s[i] as int
  {
    if |s| > 0 {
      BmpTextIsOneUnitPerChar(s[1..]);
      assert Utf16(s) == [s[0] as int as CodeUnit] + Utf16(s[1..]);
      forall i | 0 < i < |s| ensures Utf16(s)[i] as int == s[i] as int {
        assert s[1..][i - 1] == s[i];
      }
    }
  }

  /** The state of one buzzer screen; the displayed text is a run of code units. */
  datatype Round = Round(game: GameState, current: Option<Question>, displayed: seq<CodeUnit>, remaining: seq<Question>)

  /** The text the typewriter reveals: the question's prompt, as JavaScript holds it. */
  function Content(q: Question): seq<CodeUnit> {
    Utf16(q.question)
  }

  /** What holds of a round at every step, given the question list it was loaded with. */
  predicate Inv(r: Round, all: seq<Question>) {
    && multiset(r.remaining) <= multiset(all)
    && (r.game == Displaying || r.game == Answered ==> r.current.Some?)
    && (r.game == Finished ==> r.current.None?)
    && (r.current.Some? ==> r.displayed <= Content(r.current.value))
  }

  /** The screen as first shown for `all`: the load effect fills the round and idles. */
  function Mount(all: seq<Question>): (r: Round)
    ensures r.game == Idle && r.remaining == all && r.current.None? && r.displayed == []
    ensures Inv(r, all)
  {
    Round(Idle, None, [], all)
  }

  /** The load effect when the question list changes: the round restarts from the new
      list and idles; the last question and its text are kept. */
  function QuestionsChanged(r: Round, all: seq<Question>): (r': Round)
    ensures r'.remaining == all && r'.game == Idle
    ensures r'.current == r.current && r'.displayed == r.displayed
    ensures forall before :: Inv(r, before) ==> Inv(r', all)
  {
    r.(remaining := all, game := Idle)
  }

  /** `handleNextQuestion`. With nothing left the round is finished and no question is
      current. Otherwise the picked question becomes current, every question with its
      id leaves the remaining list, the text is cleared and the typewriter starts. */
  function NextQuestion(r: Round, pick: nat): (r': Round)
    requires |r.remaining| > 0 ==> pick < |r.remaining|
    ensures |r.remaining| == 0 ==>
      r'.game == Finished && r'.current.None? && r'.remaining == r.remaining && r'.displayed == r.displayed
    ensures |r.remaining| > 0 ==>
      && r'.game == Displaying
      && r'.current == Some(r.remaining[pick])
      && r'.displayed == []
      && (forall q :: q in r'.remaining <==> q in r.remaining && q.id != r.remaining[pick].id)
      && |r'.remaining| < |r.remaining|
    ensures forall all :: Inv(r, all) ==> Inv(r', all)
  {
    if |r.remaining| == 0 then r.(game := Finished, current := None)
    else
      var next := r.remaining[pick];
      var rest := RemoveId(r.remaining, next.id);
      Round(Displaying, Some(next), [], rest)
  }

  /** `handleBuzzer`: while a question is being typed, buzzing shows all of it and
      answers; in any other state it does nothing. */
  function Buzz(r: Round): (r': Round)
    ensures r.game == Displaying && r.current.Some? ==>
      r'.game == Answered && r'.displayed == Content(r.current.value)
      && r'.current == r.current && r'.remaining == r.remaining
    ensures !(r.game == Displaying && r.current.Some?) ==> r' == r
    ensures forall all :: Inv(r, all) ==> Inv(r', all)
  {
    if r.game == Displaying && r.current.Some? then
      r.(displayed := Content(r.current.value), game := Answered)
    else r
  }

  /** One tick of the typewriter timer, which runs only while a question is being typed:
      the text grows by the next code unit of the content; once it is complete the tick
      answers instead and leaves the text as it is. */
  function Tick(r: Round): (r': Round)
    ensures !(r.game == Displaying && r.current.Some?) ==> r' == r
    ensures r.game == Displaying && r.current.Some? && |r.displayed| < |Content(r.current.value)| ==>
      r'.game == Displaying && r'.displayed == Content(r.current.value)[..|r.displayed| + 1]
      && r'.current == r.current && r'.remaining == r.remaining
    ensures r.game == Displaying && r.current.Some? && |r.displayed| >= |Content(r.current.value)| ==>
      r' == r.(game := Answered)
    ensures forall all :: Inv(r, all) ==> Inv(r', all)
  {
    if r.game == Displaying && r.current.Some? then
      var content := Content(r.current.value);
      if |r.displayed| >= |content| then r.(game := Answered)
      else r.(displayed := content[..|r.displayed| + 1])
    else r
  }

  /** `handleReset`: a fresh round over the whole list. */
  function Reset(r: Round, all: seq<Question>): (r': Round)
    ensures r' == Mount(all)
    ensures Inv(r', all) && Completed(all, r') == 0
  {
    Round(Idle, None, [], all)
  }

  /** The "completed" counter: questions of the list no longer remaining. */
  function Completed(all: seq<Question>, r: Round): int {
    |all| - |r.remaining|
  }

  lemma SubMultisetSize<T>(a: multiset<T>, b: multiset<T>)
    requires a <= b
    ensures |a| <= |b|
  {
    assert b == a + (b - a);
  }

  /** The counter never leaves 0..|all|. */
  lemma CompletedInRange(all: seq<Question>, r: Round)
    requires Inv(r, all)
    ensures 0 <= Completed(all, r) <= |all|
  {
    SubMultisetSize(multiset(r.remaining), multiset(all));
  }

  /** With distinct ids each draw plays exactly one question, so the counter goes up by one. */
  lemma NextQuestionCompletesOne(all: seq<Question>, r: Round, pick: nat)
    requires UniqueIds(r.remaining) && pick < |r.remaining|
    ensures Completed(all, NextQuestion(r, pick)) == Completed(all, r) + 1
  {
    RemoveListedIdDropsOne(r.remaining, pick);
  }

  /** `n` ticks of the timer. */
  function Ticks(r: Round, n: nat): Round
    decreases n
  {
    if n == 0 then r else Ticks(Tick(r), n - 1)
  }

  /** The typewriter: starting from the first `k` code units, `n` more ticks show the
      first `k + n`, for as long as the content lasts. */
  lemma {:induction false} TicksRevealPrefix(r: Round, k: nat, n: nat)
    requires r.game == Displaying && r.current.Some?
    requires k + n <= |Content(r.current.value)| && r.displayed == Content(r.current.value)[..k]
    ensures Ticks(r, n) == r.(displayed := Content(r.current.value)[..k + n])
    decreases n
  {
    if n > 0 {
      var c := Content(r.current.value);
      assert Tick(r) == r.(displayed := c[..k + 1]);
      TicksRevealPrefix(Tick(r), k + 1, n - 1);
    }
  }

  /** A question that is left alone is typed out in full and answered after one tick
      more than its length in code units. */
  lemma UnbuzzedQuestionIsAnswered(r: Round)
    requires r.game == Displaying && r.current.Some? && r.displayed == []
    ensures Ticks(r, |Content(r.current.value)|).displayed == Content(r.current.value)
    ensures Ticks(r, |Content(r.current.value)| + 1) == r.(displayed := Content(r.current.value), game := Answered)
  {
    var c := Content(r.current.value);
    TicksRevealPrefix(r, 0, |c|);
    assert c[..|c|] == c;
    assert Ticks(r, |c| + 1) == Ticks(Tick(r), |c|);
    TicksThenOne(r, |c|);
  }

  lemma {:induction false} TicksThenOne(r: Round, n: nat)
    ensures Ticks(r, n + 1) == Tick(Ticks(r, n))
    decreases n
  {
    if n > 0 {
      TicksThenOne(Tick(r), n - 1);
    }
  }

  /** A question whose text opens with a character outside the Basic Multilingual Plane
      (an emoji, a rare CJK character) first shows a lone high surrogate: that character
      takes two ticks to appear. */
  lemma AstralCharacterTakesTwoTicks(r: Round)
    requires r.game == Displaying && r.current.Some? && r.displayed == []
    requires |r.current.value.question| > 0 && r.current.value.question[0] as int >= 0x1_0000
    ensures |Tick(r).displayed| == 1 && 0xD800 <= Tick(r).displayed[0] < 0xDC00
    ensures Tick(Tick(r)).displayed == CharUnits(r.current.value.question[0])
  {
    var c := Content(r.current.value);
    var pair := CharUnits(r.current.value.question[0]);
    assert c[..2] == pair;
    assert c[..1] == pair[..1];
  }
}
