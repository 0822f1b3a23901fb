/**
 * `DatabaseManager`: the store behind the clipboard, holding the prompt
 * table, the table of co-selection relations between prompts and the
 * key/value settings table. Every operation runs in one session and
 * either commits all of its writes or none of them.
 */
module Database {
  import opened Text
  import opened Ordering
  import opened Records
  import opened RelationGraph
  import opened Search

  /** The outcome of `add_prompt`: the new key, or a commit refused because the key is taken. */
  datatype AddResult = Added(id: Id) | DuplicateKey

  // ---------------------------------------------------------------------
  // Primary-key lookups after a write

  /** Under unique keys, looking up a row's own key finds that row. */
  lemma GetPromptOfRow(ps: seq<Prompt>, p: Prompt)
    requires UniqueIds(ps) && p in ps
    ensures GetPrompt(ps, p.id) == Some(p)
  {
    var k :| 0 <= k < |ps| && ps[k] == p;
    var q := GetPrompt(ps, p.id).value;
    var j :| 0 <= j < |ps| && ps[j] == q;
    assert ps[j].id == ps[k].id;
  }

  /**
   * Inserting a row under a fresh key keeps the keys unique; the new key
   * finds the new row and every other key finds what it found before.
   */
  lemma InsertLookup(ps: seq<Prompt>, p: Prompt, id: Id)
    requires UniqueIds(ps) && GetPrompt(ps, p.id).None?
    ensures UniqueIds(ps + [p])
    ensures GetPrompt(ps + [p], id) == if id == p.id then Some(p) else GetPrompt(ps, id)
  {
    var ps' := ps + [p];
    forall i, j | 0 <= i < j < |ps'| ensures ps'[i].id != ps'[j].id {
      if j == |ps| { assert ps[i] in ps; }
    }
    if id == p.id {
      GetPromptOfRow(ps', p);
    } else if GetPrompt(ps, id).Some? {
      GetPromptOfRow(ps', GetPrompt(ps, id).value);
    }
  }

  /**
   * Rewriting row `k` without changing its key keeps the keys unique; that
   * key finds the new row and every other key finds what it found before.
   */
  lemma ReplaceLookup(ps: seq<Prompt>, k: nat, p: Prompt, id: Id)
    requires UniqueIds(ps) && k < |ps| && p.id == ps[k].id
    ensures UniqueIds(ps[k := p])
    ensures GetPrompt(ps[k := p], id) == if id == p.id then Some(p) else GetPrompt(ps, id)
  {
    var ps' := ps[k := p];
    assert forall j :: 0 <= j < |ps| ==> ps'[j].id == ps[j].id;
    if id == p.id {
      GetPromptOfRow(ps', p);
    } else if GetPrompt(ps, id).Some? {
      var q := GetPrompt(ps, id).value;
      var j :| 0 <= j < |ps| && ps[j] == q;
      assert ps'[j] == q;
      GetPromptOfRow(ps', q);
    } else {
      forall r | r in ps' ensures r.id != id {
        var j :| 0 <= j < |ps'| && ps'[j] == r;
        if j != k { assert ps[j] in ps; }
      }
    }
  }

  /** `InsertLookup` for every key at once. */
  lemma InsertLookupAll(ps: seq<Prompt>, p: Prompt)
    requires UniqueIds(ps) && GetPrompt(ps, p.id).None?
    ensures UniqueIds(ps + [p])
    ensures forall x :: GetPrompt(ps + [p], x) == if x == p.id then Some(p) else GetPrompt(ps, x)
  {
    InsertLookup(ps, p, p.id);
    forall x ensures GetPrompt(ps + [p], x) == if x == p.id then Some(p) else GetPrompt(ps, x) {
      InsertLookup(ps, p, x);
    }
  }

  /** `ReplaceLookup` for every key at once. */
  lemma ReplaceLookupAll(ps: seq<Prompt>, k: nat, p: Prompt)
    requires UniqueIds(ps) && k < |ps| && p.id == ps[k].id
    ensures UniqueIds(ps[k := p])
    ensures GetPrompt(ps, p.id) == Some(ps[k])
    ensures forall x :: GetPrompt(ps[k := p], x) == if x == p.id then Some(p) else GetPrompt(ps, x)
  {
    GetPromptOfRow(ps, ps[k]);
    ReplaceLookup(ps, k, p, p.id);
    forall x ensures GetPrompt(ps[k := p], x) == if x == p.id then Some(p) else GetPrompt(ps, x) {
      ReplaceLookup(ps, k, p, x);
    }
  }

  /**
   * Removing row `k` keeps the keys unique; its key then finds nothing and
   * every other key finds what it found before.
   */
  lemma RemoveLookup(ps: seq<Prompt>, k: nat, id: Id)
    requires UniqueIds(ps) && k < |ps|
    ensures UniqueIds(ps[..k] + ps[k + 1..])
    ensures GetPrompt(ps[..k] + ps[k + 1..], id) == if id == ps[k].id then None else GetPrompt(ps, id)
  {
    var ps' := ps[..k] + ps[k + 1..];
    RemoveRows(ps, k);
    if id != ps[k].id {
      match GetPrompt(ps, id)
      case None =>
      case Some(q) =>
        var j :| 0 <= j < |ps| && ps[j] == q;
        var j' := if j < k then j else j - 1;
        assert Skip(j', k) == j;
        GetPromptOfRow(ps', ps'[j']);
    }
  }

  /** `RemoveLookup` for every key at once. */
  lemma RemoveLookupAll(ps: seq<Prompt>, k: nat)
    requires UniqueIds(ps) && k < |ps|
    ensures UniqueIds(ps[..k] + ps[k + 1..])
    ensures forall x :: GetPrompt(ps[..k] + ps[k + 1..], x) == if x == ps[k].id then None else GetPrompt(ps, x)
  {
    RemoveRows(ps, k);
    forall x ensures GetPrompt(ps[..k] + ps[k + 1..], x) == if x == ps[k].id then None else GetPrompt(ps, x) {
      RemoveLookup(ps, k, x);
    }
  }

  /** The rows left after removing row `k` are the other rows of `ps`, keys still unique, none with the removed key. */
  lemma RemoveRows(ps: seq<Prompt>, k: nat)
    requires UniqueIds(ps) && k < |ps|
    ensures forall j :: 0 <= j < |ps| - 1 ==> (ps[..k] + ps[k + 1..])[j] == ps[Skip(j, k)]
    ensures UniqueIds(ps[..k] + ps[k + 1..])
    ensures forall r :: r in ps[..k] + ps[k + 1..] ==> r in ps && r.id != ps[k].id
  {
    var ps' := ps[..k] + ps[k + 1..];
    forall j | 0 <= j < |ps'| ensures ps'[j] == ps[Skip(j, k)] {
      if j < k {
        assert ps'[j] == ps[..k][j];
      } else {
        assert ps'[j] == ps[k + 1..][j - k];
      }
    }
    forall i, j | 0 <= i < j < |ps'| ensures ps'[i].id != ps'[j].id {
      assert Skip(i, k) < Skip(j, k);
    }
    forall r | r in ps' ensures r in ps && r.id != ps[k].id {
      var j :| 0 <= j < |ps'| && ps'[j] == r;
      assert Skip(j, k) != k;
    }
  }

  /** Position in the table before the removal of row `k` of what is row `j` after it. */
  function Skip(j: nat, k: nat): nat {
    if j < k then j else j + 1
  }

  // ---------------------------------------------------------------------
  // Settings

  /** `get_setting(key, default)` over the settings table `ss`: the stored value, or `default`. */
  function SettingValue(ss: map<string, Setting>, key: string, default: Option<string>): Option<string> {
    if key in ss then Some(ss[key].value) else default
  }

  /** `set_setting(key, value)` at time `now`: the row is rewritten or created. */
  function Upsert(ss: map<string, Setting>, key: string, value: string, now: Timestamp): (ss': map<string, Setting>)
    ensures ss'.Keys == ss.Keys + {key}
  {
    ss[key := Setting(value, now)]
  }

  /** After `set_setting(key, value)`, `get_setting(key, _)` is `value`; every other key reads as before. */
  lemma UpsertThenRead(ss: map<string, Setting>, key: string, value: string, now: Timestamp, k: string, default: Option<string>)
    ensures SettingValue(Upsert(ss, key, value, now), k, default) == if k == key then Some(value) else SettingValue(ss, k, default)
  {
  }

  // ---------------------------------------------------------------------
  // The loops of `search_prompts`

  /**
   * The scan of `search_prompts`: walks the ranked prompts, keeps those
   * holding every word, and stops as soon as `limit` have been kept.
   */
  method ScanMatches(ranked: seq<Prompt>, words: seq<string>, limit: int) returns (matched: seq<Prompt>)
    ensures matched == FirstMatches(ranked, words, Cap(limit))
  {
    matched := [];
    var i := 0;
    while i < |ranked|
      invariant 0 <= i <= |ranked|
      invariant matched == Filter(ranked[..i], words)
      invariant |matched| < Cap(limit)
    {
      var prompt := ranked[i];
      FilterStep(ranked, words, i);
      if Matches(words, prompt) {
        matched := matched + [prompt];
        if |matched| >= limit {
          FilterPrefix(ranked, words, i + 1);
          return;
        }
      }
      i := i + 1;
    }
    assert ranked[..i] == ranked;
  }

  /**
   * Reading `rel` takes `cross_refs` from `cross` to `cross'`: it opens
   * the keys `rel` opens and appends `rel`'s contribution to every list.
   */
  ghost predicate CrossRefsRead(ps: seq<Prompt>, ids: set<Id>, rel: PromptRelation, cross: map<Id, seq<Entry>>, cross': map<Id, seq<Entry>>) {
    forall m ::
      (m in cross' <==> m in cross || OpensCrossRefs(ids, rel, m))
      && (m in cross' ==> cross'[m] == (if m in cross then cross[m] else []) + Contribution(ps, ids, rel, m, CrossRefs))
      && (m !in cross' ==> Contribution(ps, ids, rel, m, CrossRefs) == [])
  }

  /**
   * Reading `rel` takes `related_map` from `related` to `related'`: a key
   * appears where something is appended to it.
   */
  ghost predicate RelatedMapRead(ps: seq<Prompt>, ids: set<Id>, rel: PromptRelation, related: map<Id, seq<Entry>>, related': map<Id, seq<Entry>>) {
    forall m ::
      (m in related' <==> m in related || Contribution(ps, ids, rel, m, RelatedMap) != [])
      && (m in related' ==> related'[m] == (if m in related then related[m] else []) + Contribution(ps, ids, rel, m, RelatedMap))
  }

  /**
   * The branch of the dictionary loop for a relation with both ends
   * matched: opens both keys, then lists each end under the other.
   */
  method AddCrossRefs(ps: seq<Prompt>, ids: set<Id>, rel: PromptRelation, cross: map<Id, seq<Entry>>)
    returns (cross': map<Id, seq<Entry>>)
    requires rel.promptId1 in ids && rel.promptId2 in ids
    ensures CrossRefsRead(ps, ids, rel, cross, cross')
  {
    var id1, id2 := rel.promptId1, rel.promptId2;
    var keyed := OpenKeys(cross, id1, id2);
    var prompt2 := GetPrompt(ps, id2);
    var prompt1 := GetPrompt(ps, id1);
    var half := ListUnder(keyed, id1, prompt2, rel.strength);
    cross' := ListUnder(half, id2, prompt1, rel.strength);
    forall m
      ensures m in cross' <==> m in cross || OpensCrossRefs(ids, rel, m)
      ensures m in cross' ==> cross'[m] == (if m in cross then cross[m] else []) + Contribution(ps, ids, rel, m, CrossRefs)
      ensures m !in cross' ==> Contribution(ps, ids, rel, m, CrossRefs) == []
    {
      var a := if id1 == m then OtherEnd(ps, id2, rel.strength) else [];
      var b := if id2 == m then OtherEnd(ps, id1, rel.strength) else [];
      assert Contribution(ps, ids, rel, m, CrossRefs) == a + b;
      if m in cross' {
        var k := keyed[m];
        assert cross'[m] == (k + a) + b;
        AppendAssociative(k, a, b);
      }
    }
  }

  /** Concatenation is associative. */
  lemma AppendAssociative<T>(a: seq<T>, b: seq<T>, c: seq<T>)
    ensures (a + b) + c == a + (b + c)
  {
  }

  /** Opens the lists of `id1` and `id2` in `cross_refs` with `[]` where they are missing. */
  method OpenKeys(cross: map<Id, seq<Entry>>, id1: Id, id2: Id) returns (keyed: map<Id, seq<Entry>>)
    ensures forall m :: m in keyed <==> m in cross || m == id1 || m == id2
    ensures forall m :: m in keyed ==> keyed[m] == if m in cross then cross[m] else []
  {
    keyed := cross;
    if id1 !in keyed { keyed := keyed[id1 := []]; }
    if id2 !in keyed { keyed := keyed[id2 := []]; }
  }

  /** Appends `(prompt, strength)` to the list of `key` when the prompt lookup found one. */
  method ListUnder(dict: map<Id, seq<Entry>>, key: Id, prompt: Option<Prompt>, strength: nat) returns (dict': map<Id, seq<Entry>>)
    requires key in dict
    ensures forall m :: m in dict' <==> m in dict
    ensures forall m :: m in dict' ==> dict'[m] == dict[m] + if m == key && prompt.Some? then [(prompt.value, strength)] else []
  {
    dict' := dict;
    if prompt.Some? { dict' := dict'[key := dict'[key] + [(prompt.value, strength)]]; }
  }

  /**
   * The branch of the dictionary loop for a relation with one end `key`
   * matched and the other end `otherId` not: lists the prompt at the
   * other end, if it exists, under `key`.
   */
  method AddRelated(ps: seq<Prompt>, ids: set<Id>, rel: PromptRelation, key: Id, otherId: Id, related: map<Id, seq<Entry>>)
    returns (related': map<Id, seq<Entry>>)
    requires key in ids && otherId !in ids
    requires (key == rel.promptId1 && otherId == rel.promptId2) || (key == rel.promptId2 && otherId == rel.promptId1)
    ensures RelatedMapRead(ps, ids, rel, related, related')
  {
    related' := related;
    var other := GetPrompt(ps, otherId);
    if other.Some? {
      if key !in related' { related' := related'[key := []]; }
      related' := related'[key := related'[key] + [(other.value, rel.strength)]];
    }
    forall m
      ensures m in related' <==> m in related || Contribution(ps, ids, rel, m, RelatedMap) != []
      ensures m in related' ==> related'[m] == (if m in related then related[m] else []) + Contribution(ps, ids, rel, m, RelatedMap)
    {
      assert Contribution(ps, ids, rel, m, RelatedMap) == if m == key then OtherEnd(ps, otherId, rel.strength) else [];
    }
  }

  /** A relation without both ends matched leaves `cross_refs` as it is. */
  lemma CrossRefsUntouched(ps: seq<Prompt>, ids: set<Id>, rel: PromptRelation, cross: map<Id, seq<Entry>>)
    requires !(rel.promptId1 in ids && rel.promptId2 in ids)
    ensures CrossRefsRead(ps, ids, rel, cross, cross)
  {
  }

  /** A relation with both ends matched, or neither, leaves `related_map` as it is. */
  lemma RelatedMapUntouched(ps: seq<Prompt>, ids: set<Id>, rel: PromptRelation, related: map<Id, seq<Entry>>)
    requires rel.promptId1 in ids <==> rel.promptId2 in ids
    ensures RelatedMapRead(ps, ids, rel, related, related)
  {
  }

  /**
   * One pass of the dictionary loop: relation `rel` opens the keys it
   * should and appends its contribution to each list.
   */
  method ReadRelation(ps: seq<Prompt>, ids: set<Id>, rel: PromptRelation,
                      related: map<Id, seq<Entry>>, cross: map<Id, seq<Entry>>)
    returns (related': map<Id, seq<Entry>>, cross': map<Id, seq<Entry>>)
    ensures CrossRefsRead(ps, ids, rel, cross, cross')
    ensures RelatedMapRead(ps, ids, rel, related, related')
  {
    related', cross' := related, cross;
    var id1, id2 := rel.promptId1, rel.promptId2;
    if id1 in ids && id2 in ids {
      cross' := AddCrossRefs(ps, ids, rel, cross);
      RelatedMapUntouched(ps, ids, rel, related);
    } else {
      CrossRefsUntouched(ps, ids, rel, cross);
      if id1 in ids {
        related' := AddRelated(ps, ids, rel, id1, id2, related);
      } else if id2 in ids {
        related' := AddRelated(ps, ids, rel, id2, id1, related);
      } else {
        RelatedMapUntouched(ps, ids, rel, related);
      }
    }
  }

  /** `cross` holds exactly the lists `cross_refs` holds after reading `rels`. */
  ghost predicate CrossRefsAfter(ps: seq<Prompt>, ids: set<Id>, rels: seq<PromptRelation>, cross: map<Id, seq<Entry>>) {
    forall m ::
      (m in cross <==> m in ids && HasCrossRefs(ids, rels, m))
      && (m in cross ==> cross[m] == Collect(ps, ids, rels, m, CrossRefs))
      && (m !in cross ==> Collect(ps, ids, rels, m, CrossRefs) == [])
  }

  /** `related` holds exactly the lists `related_map` holds after reading `rels`. */
  ghost predicate RelatedMapAfter(ps: seq<Prompt>, ids: set<Id>, rels: seq<PromptRelation>, related: map<Id, seq<Entry>>) {
    forall m ::
      (m in related <==> m in ids && Collect(ps, ids, rels, m, RelatedMap) != [])
      && (m in related ==> related[m] == Collect(ps, ids, rels, m, RelatedMap))
  }

  /**
   * The dictionary loop of `search_prompts`: reads the relations touching
   * the matched ids, strongest first, into `related_map` and `cross_refs`.
   */
  method FillDictionaries(ps: seq<Prompt>, ids: set<Id>, rels: seq<PromptRelation>)
    returns (related: map<Id, seq<Entry>>, cross: map<Id, seq<Entry>>)
    ensures related == RelatedMapOf(ps, ids, rels)
    ensures cross == CrossRefsOf(ps, ids, rels)
  {
    related, cross := map[], map[];
    var i := 0;
    while i < |rels|
      invariant 0 <= i <= |rels|
      invariant CrossRefsAfter(ps, ids, rels[..i], cross)
      invariant RelatedMapAfter(ps, ids, rels[..i], related)
    {
      var related', cross' := ReadRelation(ps, ids, rels[i], related, cross);
      CrossRefsAfterStep(ps, ids, rels, i, cross, cross');
      RelatedMapAfterStep(ps, ids, rels, i, related, related');
      related, cross := related', cross';
      i := i + 1;
    }
    assert rels[..i] == rels;
    CrossRefsAfterAll(ps, ids, rels, cross);
    RelatedMapAfterAll(ps, ids, rels, related);
  }

  /** The dictionary loop keeps `cross_refs` in step with the relations read so far. */
  lemma CrossRefsAfterStep(ps: seq<Prompt>, ids: set<Id>, rels: seq<PromptRelation>, i: nat,
                           cross: map<Id, seq<Entry>>, cross': map<Id, seq<Entry>>)
    requires i < |rels| && CrossRefsAfter(ps, ids, rels[..i], cross)
    requires CrossRefsRead(ps, ids, rels[i], cross, cross')
    ensures CrossRefsAfter(ps, ids, rels[..i + 1], cross')
  {
    forall m
      ensures (m in cross' <==> m in ids && HasCrossRefs(ids, rels[..i + 1], m))
      ensures m in cross' ==> cross'[m] == Collect(ps, ids, rels[..i + 1], m, CrossRefs)
      ensures m !in cross' ==> Collect(ps, ids, rels[..i + 1], m, CrossRefs) == []
    {
      CollectStep(ps, ids, rels, i, m, CrossRefs);
      HasCrossRefsStep(ids, rels, i, m);
    }
  }

  /** The dictionary loop keeps `related_map` in step with the relations read so far. */
  lemma RelatedMapAfterStep(ps: seq<Prompt>, ids: set<Id>, rels: seq<PromptRelation>, i: nat,
                            related: map<Id, seq<Entry>>, related': map<Id, seq<Entry>>)
    requires i < |rels| && RelatedMapAfter(ps, ids, rels[..i], related)
    requires RelatedMapRead(ps, ids, rels[i], related, related')
    ensures RelatedMapAfter(ps, ids, rels[..i + 1], related')
  {
    forall m
      ensures Collect(ps, ids, rels[..i + 1], m, RelatedMap) == Collect(ps, ids, rels[..i], m, RelatedMap) + Contribution(ps, ids, rels[i], m, RelatedMap)
    {
      CollectStep(ps, ids, rels, i, m, RelatedMap);
    }
  }

  /** Once every relation is read, the loop's `cross_refs` is the specified one. */
  lemma CrossRefsAfterAll(ps: seq<Prompt>, ids: set<Id>, rels: seq<PromptRelation>, cross: map<Id, seq<Entry>>)
    requires CrossRefsAfter(ps, ids, rels, cross)
    ensures cross == CrossRefsOf(ps, ids, rels)
  {
  }

  /** Once every relation is read, the loop's `related_map` is the specified one. */
  lemma RelatedMapAfterAll(ps: seq<Prompt>, ids: set<Id>, rels: seq<PromptRelation>, related: map<Id, seq<Entry>>)
    requires RelatedMapAfter(ps, ids, rels, related)
    ensures related == RelatedMapOf(ps, ids, rels)
  {
  }

  // ---------------------------------------------------------------------
  // The loop of `delete_prompt`

  /**
   * The cascade of `delete_prompt`: every relation touching `pid` is
   * deleted; what is left is the rest of the table, in its order.
   */
  method Cascade(rs: seq<PromptRelation>, pid: Id) returns (kept: seq<PromptRelation>)
    ensures kept == Detach(rs, pid)
  {
    kept := [];
    var i := 0;
    while i < |rs|
      invariant 0 <= i <= |rs|
      invariant kept == Detach(rs[..i], pid)
    {
      DetachAppend(rs[..i], [rs[i]], pid);
      assert rs[..i + 1] == rs[..i] + [rs[i]];
      if !Touches(rs[i], pid) {
        kept := kept + [rs[i]];
      }
      i := i + 1;
    }
    assert rs[..i] == rs;
  }

  /** Treating pair `(i, j)` extends the pairs done by the inner loop by that one pair. */
  lemma NextPair(rs: seq<PromptRelation>, ids: seq<Id>, i: nat, j: nat, now: Timestamp)
    requires i < j < |ids|
    ensures ReinforceAll(rs, Row(ids, i, j + 1), now) == Reinforce(ReinforceAll(rs, Row(ids, i, j), now), Canon(ids[i], ids[j]), now)
  {
    var done := Row(ids, i, j);
    assert (done + [Canon(ids[i], ids[j])])[..|done|] == done;
  }

  // ---------------------------------------------------------------------
  // The store

  class DatabaseManager {
    /** The `prompt` table, in storage order. */
    var prompts: seq<Prompt>
    /** The `promptrelation` table, in storage order. */
    var relations: seq<PromptRelation>
    /** The `setting` table, by primary key. */
    var settings: map<string, Setting>

    /** Primary keys are unique and relations are stored one per canonical pair with positive strength. */
    ghost predicate Valid()
      reads this
    {
      UniqueIds(prompts) && WellFormed(relations)
    }

    /** A new store: the three tables are created empty. */
    constructor()
      ensures Valid()
      ensures prompts == [] && relations == [] && settings == map[]
    {
      prompts := [];
      relations := [];
      settings := map[];
    }

    /**
     * `add_prompt(body)`: stores a prompt with no uses, created and updated
     * at `now`, under the key `id` drawn from the UUID generator. A key
     * already taken makes the commit fail, and nothing is stored.
     */
    method AddPrompt(body: string, id: Id, now: Timestamp) returns (r: AddResult)
      requires Valid()
      modifies this
      ensures Valid()
      ensures old(GetPrompt(prompts, id)).Some? ==> r == DuplicateKey && prompts == old(prompts)
      ensures old(GetPrompt(prompts, id)).None? ==>
        r == Added(id) && prompts == old(prompts) + [Prompt(id, body, 0, now, now)]
      ensures r.Added? ==> GetPrompt(prompts, id) == Some(Prompt(id, body, 0, now, now))
      ensures forall x :: x != id ==> GetPrompt(prompts, x) == old(GetPrompt(prompts, x))
      ensures relations == old(relations) && settings == old(settings)
    {
      if GetPrompt(prompts, id).Some? {
        return DuplicateKey;
      }
      var prompt := Prompt(id, body, 0, now, now);
      InsertLookupAll(prompts, prompt);
      prompts := prompts + [prompt];
      r := Added(id);
    }

    /**
     * `update_prompt(pid, body)`: rewrites the body of the prompt `pid` and
     * stamps it updated at `now`; an unknown key changes nothing.
     */
    method UpdatePrompt(pid: Id, body: string, now: Timestamp)
      requires Valid()
      modifies this
      ensures Valid()
      ensures match old(FindPrompt(prompts, pid))
        case None => prompts == old(prompts)
        case Some(k) => prompts == old(prompts[k := prompts[k].(body := body, updatedAt := now)])
      ensures GetPrompt(prompts, pid) ==
        match old(GetPrompt(prompts, pid))
        case None => None
        case Some(p) => Some(p.(body := body, updatedAt := now))
      ensures forall x :: x != pid ==> GetPrompt(prompts, x) == old(GetPrompt(prompts, x))
      ensures relations == old(relations) && settings == old(settings)
    {
      match FindPrompt(prompts, pid)
      case None =>
      case Some(k) =>
        var prompt := prompts[k].(body := body, updatedAt := now);
        ReplaceLookupAll(prompts, k, prompt);
        prompts := prompts[k := prompt];
    }

    /** `increment_usage(pid)`: one more use of the prompt `pid`; an unknown key changes nothing. */
    method IncrementUsage(pid: Id)
      requires Valid()
      modifies this
      ensures Valid()
      ensures match old(FindPrompt(prompts, pid))
        case None => prompts == old(prompts)
        case Some(k) => prompts == old(prompts[k := prompts[k].(usageCount := prompts[k].usageCount + 1)])
      ensures GetPrompt(prompts, pid) ==
        match old(GetPrompt(prompts, pid))
        case None => None
        case Some(p) => Some(p.(usageCount := p.usageCount + 1))
      ensures forall x :: x != pid ==> GetPrompt(prompts, x) == old(GetPrompt(prompts, x))
      ensures relations == old(relations) && settings == old(settings)
    {
      match FindPrompt(prompts, pid)
      case None =>
      case Some(k) =>
        var prompt := prompts[k].(usageCount := prompts[k].usageCount + 1);
        ReplaceLookupAll(prompts, k, prompt);
        prompts := prompts[k := prompt];
    }

    /**
     * `delete_prompt(pid)`: deletes every relation touching `pid` and then
     * the prompt itself, in one commit. When there is no such prompt the
     * session ends without a commit and the staged deletions are dropped.
     */
    method DeletePrompt(pid: Id)
      requires Valid()
      modifies this
      ensures Valid()
      ensures match old(FindPrompt(prompts, pid))
        case None => prompts == old(prompts) && relations == old(relations)
        case Some(k) => prompts == old(prompts[..k] + prompts[k + 1..]) && relations == Detach(old(relations), pid)
      ensures GetPrompt(prompts, pid).None?
      ensures forall x :: x != pid ==> GetPrompt(prompts, x) == old(GetPrompt(prompts, x))
      ensures old(GetPrompt(prompts, pid)).Some? ==> forall r :: r in relations ==> !Touches(r, pid)
      ensures settings == old(settings)
    {
      var kept := Cascade(relations, pid);
      match FindPrompt(prompts, pid)
      case None =>
      case Some(k) =>
        RemoveLookupAll(prompts, k);
        DetachWellFormed(relations, pid);
        DetachMembers(relations, pid);
        relations := kept;
        prompts := prompts[..k] + prompts[k + 1..];
    }

    /** `get_all_prompts()`: every prompt, most used first, older first among equals. */
    function AllPrompts(): (r: seq<Prompt>)
      reads this
      ensures multiset(r) == multiset(prompts)
      ensures SortedBy(r, UsageOrder)
    {
      UsageOrderIsTotalPreorder();
      Sort(prompts, UsageOrder)
    }

    /** `get_all_prompts_grouped()`: the same listing as `get_all_prompts()`. */
    function AllPromptsGrouped(): (r: seq<Prompt>)
      reads this
      ensures multiset(r) == multiset(prompts)
      ensures SortedBy(r, UsageOrder)
    {
      AllPrompts()
    }

    /**
     * `search_prompts(q, limit)`: the prompts holding every word of the
     * query, most used first and at most `limit` of them, with the
     * relations around them sorted into `related_map` and `cross_refs`.
     */
    method Search(q: string, limit: int) returns (r: SearchResult)
      ensures r == Run(prompts, relations, q, limit)
    {
      var text := Lower(Strip(q));
      if text == [] {
        return NoMatches;
      }
      var words := Words(text);
      if words == [] {
        return NoMatches;
      }
      var ranked := ByUsage(prompts);
      var matched := ScanMatches(ranked, words, limit);
      if matched == [] {
        return NoMatches;
      }
      var ids := IdsOf(matched);
      var rels := TouchingByStrength(relations, ids);
      var related, cross := FillDictionaries(prompts, ids, rels);
      r := Found(matched, related, cross);
    }

    /**
     * `add_prompt_relations(ids)`: for every pair of positions `i < j` of
     * the selection, in loop order, strengthens the relation between the
     * two prompts by one or creates it with strength 1.
     */
    method AddPromptRelations(ids: seq<Id>, now: Timestamp)
      requires Valid()
      modifies this
      ensures Valid()
      ensures relations == Reinforced(old(relations), ids, now)
      ensures prompts == old(prompts) && settings == old(settings)
    {
      if |ids| < 2 {
        ShortSelectionUnchanged(relations, ids, now);
        return;
      }
      StrengthenPairs(ids, now);
      ReinforcedWellFormed(old(relations), ids, now);
    }

    /**
     * The outer loop of `add_prompt_relations`: the rows `i` of the pairs
     * `(i, j)`. A step of `AddPromptRelations`, not an operation of the store
     * of its own: the invariant is restored by `AddPromptRelations`.
     */
    method StrengthenPairs(ids: seq<Id>, now: Timestamp)
      modifies this
      ensures relations == Reinforced(old(relations), ids, now)
      ensures prompts == old(prompts) && settings == old(settings)
    {
      var i := 0;
      while i < |ids|
        invariant 0 <= i <= |ids|
        invariant relations == ReinforceAll(old(relations), Pairs(ids, i), now)
        invariant prompts == old(prompts) && settings == old(settings)
      {
        StrengthenRow(ids, i, now);
        ReinforceAllAppend(old(relations), Pairs(ids, i), Row(ids, i, |ids|), now);
        assert Pairs(ids, i + 1) == Pairs(ids, i) + Row(ids, i, |ids|);
        i := i + 1;
      }
      assert Pairs(ids, i) == SelectionPairs(ids);
    }

    /**
     * The inner loop of `add_prompt_relations`: the pairs `(i, j)` for every
     * `j > i`. A step of `AddPromptRelations`, not an operation of the store.
     */
    method StrengthenRow(ids: seq<Id>, i: nat, now: Timestamp)
      requires i < |ids|
      modifies this
      ensures relations == ReinforceAll(old(relations), Row(ids, i, |ids|), now)
      ensures prompts == old(prompts) && settings == old(settings)
    {
      var j := i + 1;
      while j < |ids|
        invariant i + 1 <= j <= |ids|
        invariant relations == ReinforceAll(old(relations), Row(ids, i, j), now)
        invariant prompts == old(prompts) && settings == old(settings)
      {
        Strengthen(Canon(ids[i], ids[j]), now);
        NextPair(old(relations), ids, i, j, now);
        j := j + 1;
      }
    }

    /**
     * One pair of `add_prompt_relations`: looks the relation up and adds one
     * to its strength, stamping it `now`, or creates it with strength 1. A
     * step of `AddPromptRelations`, which passes it canonical pairs only.
     */
    method Strengthen(pair: (Id, Id), now: Timestamp)
      modifies this
      ensures relations == Reinforce(old(relations), pair, now)
      ensures prompts == old(prompts) && settings == old(settings)
    {
      match FindRelation(relations, pair)
      case Some(k) =>
        relations := relations[k := relations[k].(strength := relations[k].strength + 1, updatedAt := now)];
      case None =>
        relations := relations + [PromptRelation(pair.0, pair.1, 1, now, now)];
    }

    /** `is_empty()`: no key finds a prompt. */
    function IsEmpty(): (r: bool)
      reads this
      ensures r <==> forall id :: GetPrompt(prompts, id).None?
    {
      assert prompts != [] ==> GetPrompt(prompts, prompts[0].id).Some?;
      prompts == []
    }

    /** `get_setting(key, default)`: the stored value of `key`, or `default` when there is none. */
    function GetSetting(key: string, default: Option<string>): (r: Option<string>)
      reads this
      ensures key in settings ==> r == Some(settings[key].value)
      ensures key !in settings ==> r == default
    {
      SettingValue(settings, key, default)
    }

    /** `set_setting(key, value)`: rewrites or creates the row of `key`, stamped `now`. */
    method SetSetting(key: string, value: string, now: Timestamp)
      requires Valid()
      modifies this
      ensures Valid()
      ensures settings == Upsert(old(settings), key, value, now)
      ensures forall d :: GetSetting(key, d) == Some(value)
      ensures forall k, d :: k != key ==> GetSetting(k, d) == SettingValue(old(settings), k, d)
      ensures prompts == old(prompts) && relations == old(relations)
    {
      if key in settings {
        settings := settings[key := settings[key].(value := value, updatedAt := now)];
      } else {
        settings := settings[key := Setting(value, now)];
      }
    }
  }
}
