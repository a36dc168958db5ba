/** The poem card: which line of a pair is the prompt and which the answer, how each
    is labelled, and the attribution line with its fallbacks. */
module PoetryCard {
  import opened Wrappers
  import opened Json
  import opened Client

  const UpperLine: string := "上句"
  const LowerLine: string := "下句"
  /** Shown when a poem has no author. */
  const UnknownAuthor: string := "佚名"
  /** Shown when a poem has no title. */
  const Untitled: string := "无题"

  datatype Card = Card(promptLine: string, answerLine: string, promptLabel: string, answerLabel: string,
                       author: Json, title: Json)

  /** `metadata?.[key]` after `question.metadata || {}`: the field of an object-valued
      metadata column, and nothing for any other metadata. */
  function MetadataField(q: Question, key: string): (r: Option<Json>)
    ensures q.metadata.None? ==> r.None?
    ensures q.metadata.Some? && !q.metadata.value.JObject? ==> r.None?
    ensures r.Some? <==> q.metadata.Some? && q.metadata.value.JObject? && key in q.metadata.value.fields
    ensures r.Some? ==> r.value == q.metadata.value.fields[key]
  {
    if q.metadata.Some? && q.metadata.value.JObject? && key in q.metadata.value.fields
    then Some(q.metadata.value.fields[key])
    else None
  }

  /** `value || fallback` on an optional field. */
  function OrDefault(v: Option<Json>, fallback: string): (r: Json)
    ensures v.Some? && Truthy(v.value) ==> r == v.value
    ensures !(v.Some? && Truthy(v.value)) ==> r == JString(fallback)
  {
    if v.Some? && Truthy(v.value) then v.value else JString(fallback)
  }

  /** The card for `q` shown from the side `contentIsPrompt` chooses. */
  function Layout(q: Question, contentIsPrompt: bool): (c: Card)
    ensures multiset{c.promptLine, c.answerLine} == multiset{q.question, q.answer}
    ensures contentIsPrompt ==> c.promptLine == q.question && c.answerLine == q.answer
    ensures !contentIsPrompt ==> c.promptLine == q.answer && c.answerLine == q.question
    ensures {c.promptLabel, c.answerLabel} == {UpperLine, LowerLine} && c.promptLabel != c.answerLabel
    ensures c.author == OrDefault(MetadataField(q, "author"), UnknownAuthor)
    ensures c.title == OrDefault(MetadataField(q, "title"), Untitled)
  {
    Card(
      if contentIsPrompt then q.question else q.answer,
      if contentIsPrompt then q.answer else q.question,
      if contentIsPrompt then UpperLine else LowerLine,
      if contentIsPrompt then LowerLine else UpperLine,
      OrDefault(MetadataField(q, "author"), UnknownAuthor),
      OrDefault(MetadataField(q, "title"), Untitled))
  }

  /** Labels travel with their lines: whichever side is the prompt, the line labelled
      上句 is the question text and the line labelled 下句 is the answer text. */
  lemma LabelsFollowLines(q: Question, contentIsPrompt: bool)
    ensures var c := Layout(q, contentIsPrompt);
      (c.promptLabel == UpperLine ==> c.promptLine == q.question)
      && (c.answerLabel == UpperLine ==> c.answerLine == q.question)
      && (c.promptLabel == LowerLine ==> c.promptLine == q.answer)
      && (c.answerLabel == LowerLine ==> c.answerLine == q.answer)
  {
  }

  /** Turning the card over swaps prompt and answer, lines and labels together. */
  lemma FlipSwapsSides(q: Question, contentIsPrompt: bool)
    ensures var c := Layout(q, contentIsPrompt);
      var d := Layout(q, !contentIsPrompt);
      c.promptLine == d.answerLine && c.answerLine == d.promptLine
      && c.promptLabel == d.answerLabel && c.answerLabel == d.promptLabel
      && c.author == d.author && c.title == d.title
  {
  }

  /** A poem without metadata is attributed to 佚名 and titled 无题; so is one whose author
      or title is empty. */
  lemma MissingMetadataDefaults(q: Question, contentIsPrompt: bool)
    ensures q.metadata.None? ==> Layout(q, contentIsPrompt).author == JString(UnknownAuthor)
    ensures q.metadata.None? ==> Layout(q, contentIsPrompt).title == JString(Untitled)
    ensures MetadataField(q, "author") == Some(JString("")) ==> Layout(q, contentIsPrompt).author == JString(UnknownAuthor)
  {
  }
}
