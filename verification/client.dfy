/** What the practice screens share: the question they show, the id filter that takes
    an answered question out of a round, the credentials they read from local storage,
    and the progress request they send. */
module Client {
  import opened Wrappers
  import opened Json
  import ProgressRoute

  /** A question as the screens receive it; `metadata` is the optional `jsonb` column. */
  datatype Question = Question(id: string, question: string, answer: string, metadata: Option<Json>)

  /** A value read from local storage: `None` when the key is absent. */
  type Stored = Option<string>

  /** JavaScript truthiness of a stored value: absent and empty both count as missing. */
  predicate Present(v: Stored) {
    v.Some? && v.value != ""
  }

  /** `qs.filter(q => q.id !== id)`: every question with that id leaves, in order. */
  function RemoveId(qs: seq<Question>, id: string): (r: seq<Question>)
    ensures |r| <= |qs|
    ensures forall q :: q in r <==> q in qs && q.id != id
    ensures multiset(r) <= multiset(qs)
    ensures (exists k :: 0 <= k < |qs| && qs[k].id == id) ==> |r| < |qs|
  {
    if |qs| == 0 then []
    else
      var rest := RemoveId(qs[1..], id);
      assert qs == [qs[0]] + qs[1..];
      assert (exists k :: 0 <= k < |qs| && qs[k].id == id) && qs[0].id != id ==>
             (exists k :: 0 <= k < |qs[1..]| && qs[1..][k].id == id) by {
        if (exists k :: 0 <= k < |qs| && qs[k].id == id) && qs[0].id != id {
          var k :| 0 <= k < |qs| && qs[k].id == id;
          assert qs[1..][k - 1] == qs[k];
        }
      }
      if qs[0].id == id then rest else [qs[0]] + rest
  }

  predicate UniqueIds(qs: seq<Question>) {
    forall i, j :: 0 <= i < j < |qs| ==> qs[i].id != qs[j].id
  }

  /** With distinct ids, removing the id of a listed question removes exactly that one. */
  lemma {:induction false} RemoveListedIdDropsOne(qs: seq<Question>, k: int)
    requires UniqueIds(qs) && 0 <= k < |qs|
    ensures |RemoveId(qs, qs[k].id)| == |qs| - 1
  {
    var id := qs[k].id;
    if k == 0 {
      RemoveAbsentIdKeepsAll(qs[1..], id);
    } else {
      assert UniqueIds(qs[1..]) by {
        forall i, j | 0 <= i < j < |qs[1..]| ensures qs[1..][i].id != qs[1..][j].id {
          assert qs[1..][i] == qs[i + 1] && qs[1..][j] == qs[j + 1];
        }
      }
      assert qs[1..][k - 1] == qs[k];
      RemoveListedIdDropsOne(qs[1..], k - 1);
    }
  }

  /** Removing an id no question carries changes nothing. */
  lemma {:induction false} RemoveAbsentIdKeepsAll(qs: seq<Question>, id: string)
    requires forall i :: 0 <= i < |qs| ==> qs[i].id != id
    ensures RemoveId(qs, id) == qs
  {
    if |qs| > 0 {
      RemoveAbsentIdKeepsAll(qs[1..], id);
    }
  }

  /** The request a practice screen sends with its bearer token. */
  datatype Sent = Sent(token: string, body: ProgressRoute.UpdateRequest)

  /** How a `fetch` ended: an HTTP response (`ok` for 2xx), or a rejected promise. */
  datatype FetchOutcome = Responded(ok: bool) | NetworkError

  /** The progress request for an answer, sent only when both credentials are present. */
  function ProgressRequest(memberId: Stored, token: Stored, question: Question, isCorrect: bool): (r: Option<Sent>)
    ensures r.Some? <==> Present(memberId) && Present(token)
    ensures r.Some? ==> r.value.token == token.value
    ensures r.Some? ==> r.value.body == ProgressRoute.UpdateRequest(memberId.value, question.id, isCorrect)
  {
    if Present(memberId) && Present(token) then
      Some(Sent(token.value, ProgressRoute.UpdateRequest(memberId.value, question.id, isCorrect)))
    else None
  }
}
