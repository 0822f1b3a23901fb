/**
 * The specification of `search_prompts`: query normalisation, the
 * all-words substring match over the usage-ranked prompts with its cap,
 * and the classification of the relations touching the matched prompts
 * into `cross_refs` (both ends matched) and `related_map` (one end matched).
 */
module Search {
  import opened Text
  import opened Ordering
  import opened Records
  import opened RelationGraph

  /** One element of a `related_map` or `cross_refs` list: the prompt at the other end and the strength. */
  type Entry = (Prompt, nat)

  /** The two dictionaries `search_prompts` fills. */
  datatype Bucket = CrossRefs | RelatedMap

  datatype SearchResult =
    /** The empty list returned for a blank query or when nothing matches. */
    | NoMatches
    /** The triple `(matched, related_map, cross_refs)`. */
    | Found(matched: seq<Prompt>, relatedMap: map<Id, seq<Entry>>, crossRefs: map<Id, seq<Entry>>)

  /** `q.strip().lower()`. */
  function SearchText(q: string): string {
    Lower(Strip(q))
  }

  /** `all(word in prompt.body.lower() for word in words)`. */
  predicate Matches(words: seq<string>, p: Prompt) {
    forall w :: w in words ==> IsSubstring(w, Lower(p.body))
  }

  /** The number of matches after which the scan stops: `len(matched) >= limit` is first true there. */
  function Cap(limit: int): (n: nat)
    ensures n >= 1 && n >= limit
    ensures limit >= 1 ==> n == limit
    ensures limit < 1 ==> n == 1
  {
    if limit >= 1 then limit else 1
  }

  /** `select(Prompt).order_by(Prompt.usage_count.desc())`: the prompts, most used first. */
  function ByUsage(ps: seq<Prompt>): seq<Prompt> {
    UsageOrderIsTotalPreorder();
    Sort(ps, UsageOrder)
  }

  /** The ranked scan is a permutation of the table, most used first. */
  lemma ByUsageFacts(ps: seq<Prompt>)
    ensures multiset(ByUsage(ps)) == multiset(ps)
    ensures SortedBy(ByUsage(ps), UsageOrder)
  {
  }

  /** The prompts of `ps` that match `words`, in the order of `ps`. */
  function Filter(ps: seq<Prompt>, words: seq<string>): seq<Prompt>
    decreases |ps|
  {
    if ps == [] then []
    else
      var init, last := ps[..|ps| - 1], ps[|ps| - 1];
      Filter(init, words) + (if Matches(words, last) then [last] else [])
  }

  /** The filtered scan holds every matching prompt as often as the scan does, and nothing else. */
  lemma {:induction false} FilterCount(ps: seq<Prompt>, words: seq<string>)
    ensures forall p :: multiset(Filter(ps, words))[p] == if Matches(words, p) then multiset(ps)[p] else 0
    decreases |ps|
  {
    if ps != [] {
      var init, last := ps[..|ps| - 1], ps[|ps| - 1];
      assert ps == init + [last];
      FilterCount(init, words);
    }
  }

  /** The filtered scan lists exactly the prompts of the scan that match. */
  lemma FilterMembers(ps: seq<Prompt>, words: seq<string>)
    ensures forall p :: p in Filter(ps, words) <==> p in ps && Matches(words, p)
  {
    FilterCount(ps, words);
    forall p ensures p in Filter(ps, words) <==> p in ps && Matches(words, p) {
      assert p in Filter(ps, words) <==> multiset(Filter(ps, words))[p] > 0;
      assert p in ps <==> multiset(ps)[p] > 0;
    }
  }

  /** The ranked scan lists exactly the prompts of the table. */
  lemma ByUsageMembers(ps: seq<Prompt>)
    ensures forall p :: p in ByUsage(ps) <==> p in ps
  {
    ByUsageFacts(ps);
    forall p ensures p in ByUsage(ps) <==> p in ps {
      assert p in ByUsage(ps) <==> multiset(ByUsage(ps))[p] > 0;
      assert p in ps <==> multiset(ps)[p] > 0;
    }
  }

  /** The first `cap` matches of the scan, or all of them when there are fewer. */
  function FirstMatches(ranked: seq<Prompt>, words: seq<string>, cap: nat): seq<Prompt> {
    var f := Filter(ranked, words);
    if |f| <= cap then f else f[..cap]
  }

  /** The ids of a list of prompts: `{p.id for p in matched}`. */
  function IdsOf(ps: seq<Prompt>): set<Id> {
    set p | p in ps :: p.id
  }

  /**
   * `select(PromptRelation).where(prompt_id_1.in_(ids) | prompt_id_2.in_(ids))`:
   * the relations with at least one end in `ids`, in table order.
   */
  function Touching(rs: seq<PromptRelation>, ids: set<Id>): seq<PromptRelation> {
    if rs == [] then []
    else (if rs[0].promptId1 in ids || rs[0].promptId2 in ids then [rs[0]] else []) + Touching(rs[1..], ids)
  }

  /** The same query with `.order_by(PromptRelation.strength.desc())`. */
  function TouchingByStrength(rs: seq<PromptRelation>, ids: set<Id>): seq<PromptRelation> {
    StrengthOrderIsTotalPreorder();
    Sort(Touching(rs, ids), StrengthOrder)
  }

  /** The query returns each relation with an end in `ids` as often as the table holds it, and nothing else. */
  lemma {:induction false} TouchingCount(rs: seq<PromptRelation>, ids: set<Id>)
    ensures forall x :: multiset(Touching(rs, ids))[x] == if x.promptId1 in ids || x.promptId2 in ids then multiset(rs)[x] else 0
  {
    if rs != [] {
      assert rs == [rs[0]] + rs[1..];
      TouchingCount(rs[1..], ids);
    }
  }

  /** The ordered query: the relations with an end in `ids`, strongest first. */
  lemma TouchingByStrengthFacts(rs: seq<PromptRelation>, ids: set<Id>)
    ensures forall x :: multiset(TouchingByStrength(rs, ids))[x] == if x.promptId1 in ids || x.promptId2 in ids then multiset(rs)[x] else 0
    ensures SortedBy(TouchingByStrength(rs, ids), StrengthOrder)
  {
    TouchingCount(rs, ids);
  }

  /** The ordered query lists exactly the relations of the table with an end in `ids`. */
  lemma TouchingByStrengthMembers(rs: seq<PromptRelation>, ids: set<Id>)
    ensures forall x :: x in TouchingByStrength(rs, ids) <==> x in rs && (x.promptId1 in ids || x.promptId2 in ids)
  {
    TouchingByStrengthFacts(rs, ids);
    forall x ensures x in TouchingByStrength(rs, ids) <==> x in rs && (x.promptId1 in ids || x.promptId2 in ids) {
      assert x in TouchingByStrength(rs, ids) <==> multiset(TouchingByStrength(rs, ids))[x] > 0;
      assert x in rs <==> multiset(rs)[x] > 0;
    }
  }

  /** `(session.get(Prompt, id), strength)` when that prompt exists, else nothing. */
  function OtherEnd(ps: seq<Prompt>, id: Id, strength: nat): seq<Entry> {
    match GetPrompt(ps, id)
    case None => []
    case Some(p) => [(p, strength)]
  }

  /** What relation `rel` appends to the list under key `m` of dictionary `b`. */
  function Contribution(ps: seq<Prompt>, ids: set<Id>, rel: PromptRelation, m: Id, b: Bucket): seq<Entry> {
    var in1, in2 := rel.promptId1 in ids, rel.promptId2 in ids;
    match b
    case CrossRefs =>
      if in1 && in2 then
        (if rel.promptId1 == m then OtherEnd(ps, rel.promptId2, rel.strength) else [])
        + (if rel.promptId2 == m then OtherEnd(ps, rel.promptId1, rel.strength) else [])
      else []
    case RelatedMap =>
      if in1 && in2 then []
      else if in1 then (if rel.promptId1 == m then OtherEnd(ps, rel.promptId2, rel.strength) else [])
      else if in2 then (if rel.promptId2 == m then OtherEnd(ps, rel.promptId1, rel.strength) else [])
      else []
  }

  /** The list under key `m` of dictionary `b` after the relations `rels` have been read in order. */
  function Collect(ps: seq<Prompt>, ids: set<Id>, rels: seq<PromptRelation>, m: Id, b: Bucket): seq<Entry>
    decreases |rels|
  {
    if rels == [] then []
    else Collect(ps, ids, rels[..|rels| - 1], m, b) + Contribution(ps, ids, rels[|rels| - 1], m, b)
  }

  /** Relation `rel` has both ends in `ids` and `m` at one of them: it opens `cross_refs[m]`. */
  predicate OpensCrossRefs(ids: set<Id>, rel: PromptRelation, m: Id) {
    rel.promptId1 in ids && rel.promptId2 in ids && Touches(rel, m)
  }

  /** Some relation of `rels` opens `cross_refs[m]`. */
  predicate HasCrossRefs(ids: set<Id>, rels: seq<PromptRelation>, m: Id)
    decreases |rels|
  {
    rels != [] && (HasCrossRefs(ids, rels[..|rels| - 1], m) || OpensCrossRefs(ids, rels[|rels| - 1], m))
  }

  /** `cross_refs` once all of `rels` has been read: a key for every matched id that a cross relation touches. */
  function CrossRefsOf(ps: seq<Prompt>, ids: set<Id>, rels: seq<PromptRelation>): map<Id, seq<Entry>> {
    map m | m in ids && HasCrossRefs(ids, rels, m) :: Collect(ps, ids, rels, m, CrossRefs)
  }

  /** `related_map` once all of `rels` has been read: a key only where something was appended. */
  function RelatedMapOf(ps: seq<Prompt>, ids: set<Id>, rels: seq<PromptRelation>): map<Id, seq<Entry>> {
    map m | m in ids && Collect(ps, ids, rels, m, RelatedMap) != [] :: Collect(ps, ids, rels, m, RelatedMap)
  }

  /** `search_prompts(q, limit)` over the prompt table `ps` and the relation table `rs`. */
  function Run(ps: seq<Prompt>, rs: seq<PromptRelation>, q: string, limit: int): SearchResult {
    var text := SearchText(q);
    if text == [] then NoMatches
    else
      var words := Words(text);
      if words == [] then NoMatches
      else
        var matched := FirstMatches(ByUsage(ps), words, Cap(limit));
        if matched == [] then NoMatches
        else
          var ids := IdsOf(matched);
          var rels := TouchingByStrength(rs, ids);
          Found(matched, RelatedMapOf(ps, ids, rels), CrossRefsOf(ps, ids, rels))
  }

  // ---------------------------------------------------------------------
  // Steps used by the imperative search

  /** Reading one more relation appends its contribution to every list. */
  lemma CollectStep(ps: seq<Prompt>, ids: set<Id>, rels: seq<PromptRelation>, k: nat, m: Id, b: Bucket)
    requires k < |rels|
    ensures Collect(ps, ids, rels[..k + 1], m, b) == Collect(ps, ids, rels[..k], m, b) + Contribution(ps, ids, rels[k], m, b)
  {
    assert rels[..k + 1][..k] == rels[..k];
  }

  /** Reading one more relation opens `cross_refs[m]` when that relation does. */
  lemma HasCrossRefsStep(ids: set<Id>, rels: seq<PromptRelation>, k: nat, m: Id)
    requires k < |rels|
    ensures HasCrossRefs(ids, rels[..k + 1], m) == (HasCrossRefs(ids, rels[..k], m) || OpensCrossRefs(ids, rels[k], m))
  {
    assert rels[..k + 1][..k] == rels[..k];
  }

  /** A relation read that opens `cross_refs[m]` leaves the key in place for good. */
  lemma {:induction false} HasCrossRefsComplete(ids: set<Id>, rels: seq<PromptRelation>, k: nat, m: Id)
    requires k < |rels| && OpensCrossRefs(ids, rels[k], m)
    ensures HasCrossRefs(ids, rels, m)
    decreases |rels|
  {
    if k < |rels| - 1 {
      HasCrossRefsComplete(ids, rels[..|rels| - 1], k, m);
    }
  }

  /** Scanning one more prompt appends it to the matches exactly when it matches. */
  lemma FilterStep(ps: seq<Prompt>, words: seq<string>, i: nat)
    requires i < |ps|
    ensures Filter(ps[..i + 1], words) == Filter(ps[..i], words) + (if Matches(words, ps[i]) then [ps[i]] else [])
  {
    assert ps[..i + 1][..i] == ps[..i];
  }

  /** The matches of a prefix of the scan are a prefix of the matches of the whole scan. */
  lemma {:induction false} FilterPrefix(ps: seq<Prompt>, words: seq<string>, i: nat)
    requires i <= |ps|
    ensures var f := Filter(ps, words);
      |Filter(ps[..i], words)| <= |f| && Filter(ps[..i], words) == f[..|Filter(ps[..i], words)|]
    decreases |ps|
  {
    if i < |ps| {
      var init := ps[..|ps| - 1];
      assert init[..i] == ps[..i];
      FilterPrefix(init, words, i);
    } else {
      assert ps[..i] == ps;
    }
  }

  // ---------------------------------------------------------------------
  // Properties of the search

  /** A list of entries whose strengths never increase. */
  predicate StrengthDescending(es: seq<Entry>) {
    forall i, j :: 0 <= i < j < |es| ==> es[i].1 >= es[j].1
  }

  /** Relation `rel` links key `m` to prompt id `other` in the way dictionary `b` records. */
  predicate Classified(ids: set<Id>, rel: PromptRelation, m: Id, other: Id, b: Bucket) {
    match b
    case CrossRefs =>
      rel.promptId1 in ids && rel.promptId2 in ids
      && ((rel.promptId1 == m && rel.promptId2 == other) || (rel.promptId2 == m && rel.promptId1 == other))
    case RelatedMap =>
      m in ids && other !in ids
      && ((rel.promptId1 == m && rel.promptId2 == other) || (rel.promptId2 == m && rel.promptId1 == other))
  }

  /** Some relation of `rs` backs entry `e` under key `m` of dictionary `b`. */
  predicate Backed(rs: seq<PromptRelation>, ids: set<Id>, m: Id, e: Entry, b: Bucket) {
    exists rel :: rel in rs && Classified(ids, rel, m, e.0.id, b) && rel.strength == e.1
  }

  /**
   * Every entry of a list comes from a relation read that links the key to
   * the entry's prompt in the dictionary's way, with that relation's
   * strength, and the entry's prompt is in the table.
   */
  lemma {:induction false} CollectProvenance(ps: seq<Prompt>, ids: set<Id>, rels: seq<PromptRelation>, m: Id, b: Bucket)
    ensures forall e :: e in Collect(ps, ids, rels, m, b) ==>
      e.0 in ps && exists k :: 0 <= k < |rels| && Classified(ids, rels[k], m, e.0.id, b) && e.1 == rels[k].strength
    decreases |rels|
  {
    if rels != [] {
      var init, last := rels[..|rels| - 1], rels[|rels| - 1];
      CollectProvenance(ps, ids, init, m, b);
      forall e | e in Collect(ps, ids, rels, m, b)
        ensures e.0 in ps && exists k :: 0 <= k < |rels| && Classified(ids, rels[k], m, e.0.id, b) && e.1 == rels[k].strength
      {
        if e in Collect(ps, ids, init, m, b) {
          var k :| 0 <= k < |init| && Classified(ids, init[k], m, e.0.id, b) && e.1 == init[k].strength;
          assert rels[k] == init[k];
        } else {
          assert e in Contribution(ps, ids, last, m, b);
          assert Classified(ids, rels[|rels| - 1], m, e.0.id, b) && e.1 == rels[|rels| - 1].strength;
        }
      }
    }
  }

  /** Reading relations in non-increasing strength gives every list in non-increasing strength. */
  lemma {:induction false} CollectDescending(ps: seq<Prompt>, ids: set<Id>, rels: seq<PromptRelation>, m: Id, b: Bucket)
    requires SortedBy(rels, StrengthOrder)
    ensures StrengthDescending(Collect(ps, ids, rels, m, b))
    decreases |rels|
  {
    if rels != [] {
      var init, last := rels[..|rels| - 1], rels[|rels| - 1];
      assert SortedBy(init, StrengthOrder);
      assert forall k :: 0 <= k < |init| ==> init[k].strength >= last.strength by {
        forall k | 0 <= k < |init| ensures init[k].strength >= last.strength {
          assert StrengthOrder(rels[k], rels[|rels| - 1]);
        }
      }
      CollectDescending(ps, ids, init, m, b);
      CollectAtLeast(ps, ids, init, m, b, last.strength);
      DescendingAppend(Collect(ps, ids, init, m, b), Contribution(ps, ids, last, m, b), last.strength);
    }
  }

  /** Relations of strength at least `s` give entries of strength at least `s`. */
  lemma CollectAtLeast(ps: seq<Prompt>, ids: set<Id>, rels: seq<PromptRelation>, m: Id, b: Bucket, s: nat)
    requires forall k :: 0 <= k < |rels| ==> rels[k].strength >= s
    ensures forall i :: 0 <= i < |Collect(ps, ids, rels, m, b)| ==> Collect(ps, ids, rels, m, b)[i].1 >= s
  {
    var es := Collect(ps, ids, rels, m, b);
    CollectProvenance(ps, ids, rels, m, b);
    forall i | 0 <= i < |es| ensures es[i].1 >= s {
      assert es[i] in es;
    }
  }

  /** A descending list followed by entries of one strength no greater than any before stays descending. */
  lemma DescendingAppend(front: seq<Entry>, back: seq<Entry>, s: nat)
    requires StrengthDescending(front)
    requires forall i :: 0 <= i < |front| ==> front[i].1 >= s
    requires forall j :: 0 <= j < |back| ==> back[j].1 == s
    ensures StrengthDescending(front + back)
  {
    var all := front + back;
    forall i, j | 0 <= i < j < |all| ensures all[i].1 >= all[j].1 {
      if j < |front| {
        assert all[i] == front[i] && all[j] == front[j];
      } else if i < |front| {
        assert all[i] == front[i] && all[j] == back[j - |front|];
      } else {
        assert all[i] == back[i - |front|] && all[j] == back[j - |front|];
      }
    }
  }

  /** A relation read contributes its entries to the list of each key it is classified under. */
  lemma {:induction false} CollectComplete(ps: seq<Prompt>, ids: set<Id>, rels: seq<PromptRelation>, k: nat, m: Id, b: Bucket)
    requires k < |rels|
    ensures forall e :: e in Contribution(ps, ids, rels[k], m, b) ==> e in Collect(ps, ids, rels, m, b)
    decreases |rels|
  {
    if k < |rels| - 1 {
      CollectComplete(ps, ids, rels[..|rels| - 1], k, m, b);
    }
  }

  /** A blank or whitespace-only query finds nothing. */
  lemma BlankQuery(ps: seq<Prompt>, rs: seq<PromptRelation>, q: string, limit: int)
    requires forall i :: 0 <= i < |q| ==> IsSpace(q[i])
    ensures Run(ps, rs, q, limit) == NoMatches
  {
  }

  /** After `strip()`, a non-blank query always yields at least one word. */
  lemma SearchTextHasWords(q: string)
    requires SearchText(q) != []
    ensures Words(SearchText(q)) != []
  {
    var t := SearchText(q);
    assert !IsSpace(t[0]);
    WordsEmpty(t);
  }

  /**
   * A prompt matches a query exactly when its lower-cased body contains every
   * whitespace-delimited word of the stripped, lower-cased query.
   */
  lemma MatchesEveryWord(q: string, p: Prompt)
    ensures Matches(Words(SearchText(q)), p)
      <==> forall w, i :: WordAt(w, SearchText(q), i) ==> IsSubstring(w, Lower(p.body))
  {
    var t := SearchText(q);
    forall w | w in Words(t)
      ensures exists i :: 0 <= i <= |t| && WordAt(w, t, i)
    {
      WordsExactly(t, w);
    }
    forall w, i | WordAt(w, t, i)
      ensures w in Words(t)
    {
      WordsComplete(t, w, i);
    }
  }

  /** The matched list of `Run`, before the dictionaries are built. */
  function MatchedOf(ps: seq<Prompt>, q: string, limit: int): seq<Prompt> {
    var text := SearchText(q);
    if text == [] then []
    else FirstMatches(ByUsage(ps), Words(text), Cap(limit))
  }

  /** How `Run` decomposes: a result is found exactly when something matched. */
  lemma RunParts(ps: seq<Prompt>, rs: seq<PromptRelation>, q: string, limit: int)
    ensures var m := MatchedOf(ps, q, limit);
      var ids := IdsOf(m);
      var rels := TouchingByStrength(rs, ids);
      Run(ps, rs, q, limit) == if m == [] then NoMatches else Found(m, RelatedMapOf(ps, ids, rels), CrossRefsOf(ps, ids, rels))
  {
    if SearchText(q) != [] {
      SearchTextHasWords(q);
    }
  }

  /** No prompt of the table matches exactly when the filtered scan is empty. */
  lemma FilterEmpty(ps: seq<Prompt>, words: seq<string>)
    ensures Filter(ByUsage(ps), words) == [] <==> forall p :: p in ps ==> !Matches(words, p)
  {
    var f := Filter(ByUsage(ps), words);
    ByUsageMembers(ps);
    FilterMembers(ByUsage(ps), words);
    if f != [] {
      assert f[0] in f;
    }
  }

  /**
   * The search finds nothing exactly when the query is blank or no prompt
   * of the table matches all of its words.
   */
  lemma NoMatchesExactly(ps: seq<Prompt>, rs: seq<PromptRelation>, q: string, limit: int)
    ensures Run(ps, rs, q, limit) == NoMatches <==>
      SearchText(q) == [] || forall p :: p in ps ==> !Matches(Words(SearchText(q)), p)
  {
    RunParts(ps, rs, q, limit);
    assert Run(ps, rs, q, limit) == NoMatches <==> MatchedOf(ps, q, limit) == [];
    MatchedOfEmpty(ps, q, limit);
    FilterEmpty(ps, Words(SearchText(q)));
  }

  /** The matched list is empty exactly when the query is blank or the filtered scan is. */
  lemma MatchedOfEmpty(ps: seq<Prompt>, q: string, limit: int)
    ensures MatchedOf(ps, q, limit) == [] <==>
      SearchText(q) == [] || Filter(ByUsage(ps), Words(SearchText(q))) == []
  {
    if SearchText(q) != [] {
      var f := Filter(ByUsage(ps), Words(SearchText(q)));
      if f != [] {
        assert FirstMatches(ByUsage(ps), Words(SearchText(q)), Cap(limit))[0] == f[0];
      }
    }
  }

  /** Every prompt of the first matches is a prompt of the table holding every word. */
  lemma FirstMatchesSound(ps: seq<Prompt>, words: seq<string>, cap: nat)
    ensures var m := FirstMatches(ByUsage(ps), words, cap);
      |m| <= cap && forall i :: 0 <= i < |m| ==> m[i] in ps && Matches(words, m[i])
  {
    var f := Filter(ByUsage(ps), words);
    var m := FirstMatches(ByUsage(ps), words, cap);
    ByUsageMembers(ps);
    FilterMembers(ByUsage(ps), words);
    forall i | 0 <= i < |m| ensures m[i] in ps && Matches(words, m[i]) {
      assert m[i] == f[i];
      assert f[i] in f;
    }
  }

  /** The first matches come most used first. */
  lemma FirstMatchesSorted(ps: seq<Prompt>, words: seq<string>, cap: nat)
    ensures SortedBy(FirstMatches(ByUsage(ps), words, cap), UsageOrder)
  {
    ByUsageFacts(ps);
    FilterSorted(ByUsage(ps), words);
  }

  /**
   * A matching prompt is left out only when the cap was reached, and then
   * it ranks no higher than any prompt returned.
   */
  lemma FirstMatchesMaximal(ps: seq<Prompt>, words: seq<string>, cap: nat)
    ensures var m := FirstMatches(ByUsage(ps), words, cap);
      forall p :: p in ps && Matches(words, p) && p !in m ==>
        |m| == cap && forall i :: 0 <= i < |m| ==> UsageOrder(m[i], p)
  {
    var f := Filter(ByUsage(ps), words);
    var m := FirstMatches(ByUsage(ps), words, cap);
    ByUsageFacts(ps);
    ByUsageMembers(ps);
    FilterMembers(ByUsage(ps), words);
    FilterSorted(ByUsage(ps), words);
    forall p | p in ps && Matches(words, p) && p !in m
      ensures |m| == cap && forall i :: 0 <= i < |m| ==> UsageOrder(m[i], p)
    {
      var j :| 0 <= j < |f| && f[j] == p;
      assert j >= |m|;
      forall i | 0 <= i < |m| ensures UsageOrder(m[i], p) {
        assert m[i] == f[i];
      }
    }
  }

  /**
   * What the matched list is: at least one and at most `Cap(limit)` prompts
   * of the table, each containing every word of the query, most used first;
   * every matching prompt left out ranks no higher than every one returned,
   * and nothing that matches is left out when the cap was not reached.
   */
  lemma MatchedPrompts(ps: seq<Prompt>, rs: seq<PromptRelation>, q: string, limit: int)
    requires Run(ps, rs, q, limit).Found?
    ensures var m := Run(ps, rs, q, limit).matched;
      var words := Words(SearchText(q));
      1 <= |m| <= Cap(limit)
      && (forall i :: 0 <= i < |m| ==> m[i] in ps && Matches(words, m[i]))
      && SortedBy(m, UsageOrder)
      && (forall p :: p in ps && Matches(words, p) && p !in m ==> |m| == Cap(limit) && forall i :: 0 <= i < |m| ==> UsageOrder(m[i], p))
  {
    var words := Words(SearchText(q));
    RunParts(ps, rs, q, limit);
    FirstMatchesSound(ps, words, Cap(limit));
    FirstMatchesSorted(ps, words, Cap(limit));
    FirstMatchesMaximal(ps, words, Cap(limit));
  }

  /** Filtering keeps a sorted scan sorted. */
  lemma {:induction false} FilterSorted(ps: seq<Prompt>, words: seq<string>)
    requires SortedBy(ps, UsageOrder)
    ensures SortedBy(Filter(ps, words), UsageOrder)
    decreases |ps|
  {
    if ps != [] {
      var init, last := ps[..|ps| - 1], ps[|ps| - 1];
      assert SortedBy(init, UsageOrder);
      FilterSorted(init, words);
      FilterMembers(init, words);
      var front := Filter(init, words);
      forall i | 0 <= i < |front| ensures UsageOrder(front[i], last) {
        assert front[i] in front;
        var k :| 0 <= k < |init| && init[k] == front[i];
        assert ps[k] == front[i];
      }
    }
  }

  /** An entry of a list traces back to a relation of the table, classified the list's way. */
  lemma EntryOrigin(ps: seq<Prompt>, rs: seq<PromptRelation>, ids: set<Id>, m: Id, e: Entry, b: Bucket)
    requires e in Collect(ps, ids, TouchingByStrength(rs, ids), m, b)
    ensures e.0 in ps && Backed(rs, ids, m, e, b)
    ensures b == CrossRefs ==> e.0.id in ids
    ensures b == RelatedMap ==> e.0.id !in ids
  {
    var rels := TouchingByStrength(rs, ids);
    TouchingByStrengthMembers(rs, ids);
    CollectProvenance(ps, ids, rels, m, b);
    var k :| 0 <= k < |rels| && Classified(ids, rels[k], m, e.0.id, b) && e.1 == rels[k].strength;
    assert rels[k] in rels;
  }

  /**
   * Every key of `cross` is a matched id whose list runs in non-increasing
   * strength, and each entry `(p, s)` is a prompt of the table, itself
   * matched, linked to the key by a relation of strength `s`.
   */
  ghost predicate CrossRefsSound(ps: seq<Prompt>, rs: seq<PromptRelation>, ids: set<Id>, cross: map<Id, seq<Entry>>) {
    forall m :: m in cross ==>
      m in ids && StrengthDescending(cross[m])
      && forall e: Entry :: e in cross[m] ==> e.0 in ps && e.0.id in ids && Backed(rs, ids, m, e, CrossRefs)
  }

  /**
   * Every key of `related` is a matched id whose list runs in non-increasing
   * strength, and each entry `(p, s)` is a prompt of the table, not matched,
   * linked to the key by a relation of strength `s`.
   */
  ghost predicate RelatedMapSound(ps: seq<Prompt>, rs: seq<PromptRelation>, ids: set<Id>, related: map<Id, seq<Entry>>) {
    forall m :: m in related ==>
      m in ids && StrengthDescending(related[m])
      && forall e: Entry :: e in related[m] ==> e.0 in ps && e.0.id !in ids && Backed(rs, ids, m, e, RelatedMap)
  }

  /** `cross_refs` over the relations touching `ids`, read strongest first. */
  lemma CrossRefsFacts(ps: seq<Prompt>, rs: seq<PromptRelation>, ids: set<Id>)
    ensures CrossRefsSound(ps, rs, ids, CrossRefsOf(ps, ids, TouchingByStrength(rs, ids)))
  {
    var rels := TouchingByStrength(rs, ids);
    var cross := CrossRefsOf(ps, ids, rels);
    TouchingByStrengthFacts(rs, ids);
    forall m | m in cross
      ensures m in ids && StrengthDescending(cross[m])
      ensures forall e: Entry :: e in cross[m] ==> e.0 in ps && e.0.id in ids && Backed(rs, ids, m, e, CrossRefs)
    {
      CollectDescending(ps, ids, rels, m, CrossRefs);
      forall e: Entry | e in cross[m] ensures e.0 in ps && e.0.id in ids && Backed(rs, ids, m, e, CrossRefs) {
        EntryOrigin(ps, rs, ids, m, e, CrossRefs);
      }
    }
  }

  /** `related_map` over the relations touching `ids`, read strongest first. */
  lemma RelatedMapFacts(ps: seq<Prompt>, rs: seq<PromptRelation>, ids: set<Id>)
    ensures RelatedMapSound(ps, rs, ids, RelatedMapOf(ps, ids, TouchingByStrength(rs, ids)))
  {
    var rels := TouchingByStrength(rs, ids);
    var related := RelatedMapOf(ps, ids, rels);
    TouchingByStrengthFacts(rs, ids);
    forall m | m in related
      ensures m in ids && StrengthDescending(related[m])
      ensures forall e: Entry :: e in related[m] ==> e.0 in ps && e.0.id !in ids && Backed(rs, ids, m, e, RelatedMap)
    {
      CollectDescending(ps, ids, rels, m, RelatedMap);
      forall e: Entry | e in related[m] ensures e.0 in ps && e.0.id !in ids && Backed(rs, ids, m, e, RelatedMap) {
        EntryOrigin(ps, rs, ids, m, e, RelatedMap);
      }
    }
  }

  /**
   * What the two dictionaries of a search hold: every key is a matched id,
   * every list runs in non-increasing strength, an entry of `cross_refs`
   * is a matched prompt and an entry of `related_map` an unmatched one,
   * each linked to its key by a relation of the table of that strength.
   */
  lemma SearchDictionaries(ps: seq<Prompt>, rs: seq<PromptRelation>, q: string, limit: int)
    requires Run(ps, rs, q, limit).Found?
    ensures var r := Run(ps, rs, q, limit);
      CrossRefsSound(ps, rs, IdsOf(r.matched), r.crossRefs)
      && RelatedMapSound(ps, rs, IdsOf(r.matched), r.relatedMap)
  {
    var ids := IdsOf(MatchedOf(ps, q, limit));
    RunParts(ps, rs, q, limit);
    CrossRefsFacts(ps, rs, ids);
    RelatedMapFacts(ps, rs, ids);
  }

  /** A relation of the table touching `ids` has a position in the strength-ordered query. */
  lemma TouchingListed(rs: seq<PromptRelation>, ids: set<Id>, rel: PromptRelation) returns (k: nat)
    requires rel in rs && (rel.promptId1 in ids || rel.promptId2 in ids)
    ensures k < |TouchingByStrength(rs, ids)| && TouchingByStrength(rs, ids)[k] == rel
  {
    var rels := TouchingByStrength(rs, ids);
    TouchingByStrengthMembers(rs, ids);
    k :| 0 <= k < |rels| && rels[k] == rel;
  }

  /** A relation with both ends in `ids` is listed under both ends in `cross_refs`. */
  lemma CrossRefsComplete(ps: seq<Prompt>, rs: seq<PromptRelation>, ids: set<Id>, rel: PromptRelation)
    requires rel in rs && rel.promptId1 in ids && rel.promptId2 in ids
    ensures var cross := CrossRefsOf(ps, ids, TouchingByStrength(rs, ids));
      rel.promptId1 in cross && rel.promptId2 in cross
      && (forall e :: e in OtherEnd(ps, rel.promptId2, rel.strength) ==> e in cross[rel.promptId1])
      && (forall e :: e in OtherEnd(ps, rel.promptId1, rel.strength) ==> e in cross[rel.promptId2])
  {
    var rels := TouchingByStrength(rs, ids);
    var k := TouchingListed(rs, ids, rel);
    CollectComplete(ps, ids, rels, k, rel.promptId1, CrossRefs);
    CollectComplete(ps, ids, rels, k, rel.promptId2, CrossRefs);
    HasCrossRefsComplete(ids, rels, k, rel.promptId1);
    HasCrossRefsComplete(ids, rels, k, rel.promptId2);
  }

  /**
   * A relation joining `m` in `ids` to an existing prompt `other` outside
   * `ids` lists that prompt, with the relation's strength, under `m` in
   * `related_map`.
   */
  lemma RelatedMapComplete(ps: seq<Prompt>, rs: seq<PromptRelation>, ids: set<Id>, rel: PromptRelation, m: Id, other: Id)
    requires rel in rs && m in ids && other !in ids && GetPrompt(ps, other).Some?
    requires (rel.promptId1 == m && rel.promptId2 == other) || (rel.promptId2 == m && rel.promptId1 == other)
    ensures var related := RelatedMapOf(ps, ids, TouchingByStrength(rs, ids));
      m in related && (GetPrompt(ps, other).value, rel.strength) in related[m]
  {
    var rels := TouchingByStrength(rs, ids);
    var k := TouchingListed(rs, ids, rel);
    CollectComplete(ps, ids, rels, k, m, RelatedMap);
    assert (GetPrompt(ps, other).value, rel.strength) in Contribution(ps, ids, rel, m, RelatedMap);
  }

  /**
   * Every relation touching the matched set is accounted for: one with both
   * ends matched is listed under both ends in `cross_refs`; one with exactly
   * one end matched is listed under that end in `related_map` when the
   * prompt at the other end exists.
   */
  lemma SearchRelationsComplete(ps: seq<Prompt>, rs: seq<PromptRelation>, q: string, limit: int, rel: PromptRelation)
    requires Run(ps, rs, q, limit).Found? && rel in rs
    ensures var r := Run(ps, rs, q, limit);
      var ids := IdsOf(r.matched);
      (rel.promptId1 in ids && rel.promptId2 in ids ==>
        rel.promptId1 in r.crossRefs && rel.promptId2 in r.crossRefs
        && (forall e :: e in OtherEnd(ps, rel.promptId2, rel.strength) ==> e in r.crossRefs[rel.promptId1])
        && (forall e :: e in OtherEnd(ps, rel.promptId1, rel.strength) ==> e in r.crossRefs[rel.promptId2]))
      && (rel.promptId1 in ids && rel.promptId2 !in ids && GetPrompt(ps, rel.promptId2).Some? ==>
        rel.promptId1 in r.relatedMap && (GetPrompt(ps, rel.promptId2).value, rel.strength) in r.relatedMap[rel.promptId1])
      && (rel.promptId2 in ids && rel.promptId1 !in ids && GetPrompt(ps, rel.promptId1).Some? ==>
        rel.promptId2 in r.relatedMap && (GetPrompt(ps, rel.promptId1).value, rel.strength) in r.relatedMap[rel.promptId2])
  {
    var ids := IdsOf(MatchedOf(ps, q, limit));
    RunParts(ps, rs, q, limit);
    if rel.promptId1 in ids && rel.promptId2 in ids {
      CrossRefsComplete(ps, rs, ids, rel);
    }
    if rel.promptId1 in ids && rel.promptId2 !in ids && GetPrompt(ps, rel.promptId2).Some? {
      RelatedMapComplete(ps, rs, ids, rel, rel.promptId1, rel.promptId2);
    }
    if rel.promptId2 in ids && rel.promptId1 !in ids && GetPrompt(ps, rel.promptId1).Some? {
      RelatedMapComplete(ps, rs, ids, rel, rel.promptId2, rel.promptId1);
    }
  }
}
