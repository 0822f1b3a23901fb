/**
 * The three record shapes of the store (`Prompt`, `PromptRelation`,
 * `Setting`) and the primary-key lookup on the prompt table.
 */
module Records {
  import opened Ordering

  datatype Option<T> = None | Some(value: T)

  /** A prompt id: the text of a UUID, chosen by the store on insertion. */
  type Id = string

  /**
   * A clock reading. The store writes UTC ISO-8601 strings; the fraction
   * of a second is omitted when it is zero, yet `'+'` sorts before `'.'`,
   * so the strings still compare as text in the same order as the instants.
   */
  type Timestamp = nat

  datatype Prompt = Prompt(
    id: Id,
    body: string,
    usageCount: nat,
    createdAt: Timestamp,
    updatedAt: Timestamp)

  /** An edge between two prompts, stored with `promptId1 <= promptId2`. */
  datatype PromptRelation = PromptRelation(
    promptId1: Id,
    promptId2: Id,
    strength: nat,
    createdAt: Timestamp,
    updatedAt: Timestamp)

  datatype Setting = Setting(value: string, updatedAt: Timestamp)

  /** No two rows of the prompt table share a primary key. */
  ghost predicate UniqueIds(ps: seq<Prompt>) {
    forall i, j :: 0 <= i < j < |ps| ==> ps[i].id != ps[j].id
  }

  /** `session.get(Prompt, id)`: the position of the row with that key, if any. */
  function FindPrompt(ps: seq<Prompt>, id: Id): (r: Option<nat>)
    ensures r.Some? ==> r.value < |ps| && ps[r.value].id == id
    ensures r.None? <==> forall k :: 0 <= k < |ps| ==> ps[k].id != id
  {
    if ps == [] then None
    else if ps[0].id == id then Some(0)
    else match FindPrompt(ps[1..], id)
      case None =>
        assert forall k :: 1 <= k < |ps| ==> ps[k] == ps[1..][k - 1];
        None
      case Some(k) => Some(k + 1)
  }

  /** The row with that key, if any. */
  function GetPrompt(ps: seq<Prompt>, id: Id): (r: Option<Prompt>)
    ensures r.Some? ==> r.value in ps && r.value.id == id
    ensures r.None? <==> forall p :: p in ps ==> p.id != id
  {
    match FindPrompt(ps, id)
    case None => None
    case Some(k) => Some(ps[k])
  }

  /** `ORDER BY usage_count DESC, created_at`: `p` may be listed before `q`. */
  predicate UsageOrder(p: Prompt, q: Prompt) {
    p.usageCount > q.usageCount || (p.usageCount == q.usageCount && p.createdAt <= q.createdAt)
  }

  /** `ORDER BY strength DESC`: `r` may be listed before `s`. */
  predicate StrengthOrder(r: PromptRelation, s: PromptRelation) {
    r.strength >= s.strength
  }

  /** The `get_all_prompts` ordering compares any two prompts and chains. */
  lemma UsageOrderIsTotalPreorder()
    ensures TotalPreorder(UsageOrder)
  {
  }

  /** The strength ordering compares any two relations and chains. */
  lemma StrengthOrderIsTotalPreorder()
    ensures TotalPreorder(StrengthOrder)
  {
  }
}
