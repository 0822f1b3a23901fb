/**
 * The relation table as a value: canonical pair order, the
 * lookup-then-create reinforcement of `add_prompt_relations`, and the
 * cascade that `delete_prompt` applies to it.
 */
module RelationGraph {
  import opened Text
  import opened Records

  /** `sorted([a, b])`: the two ids, the smaller one (under string `<`) first. */
  function Canon(a: Id, b: Id): (Id, Id) {
    if LexLt(b, a) then (b, a) else (a, b)
  }

  /** The canonical pair holds the same two ids, in non-decreasing order. */
  lemma CanonOrdered(a: Id, b: Id)
    ensures LexLe(Canon(a, b).0, Canon(a, b).1)
    ensures Canon(a, b) == (a, b) || Canon(a, b) == (b, a)
  {
    if !LexLt(b, a) && a != b {
      LexLtTotal(a, b);
    }
  }

  /** The canonical pair does not depend on the order the two ids come in. */
  lemma CanonSymmetric(a: Id, b: Id)
    ensures Canon(a, b) == Canon(b, a)
  {
    LexLtAsymmetric(a, b);
    if a != b {
      LexLtTotal(a, b);
    }
  }

  /** Relation `r` is the record stored for the ordered pair `pair`. */
  predicate Joins(r: PromptRelation, pair: (Id, Id)) {
    r.promptId1 == pair.0 && r.promptId2 == pair.1
  }

  /** Relation `r` has `id` at either end. */
  predicate Touches(r: PromptRelation, id: Id) {
    r.promptId1 == id || r.promptId2 == id
  }

  /**
   * `select(PromptRelation).where(prompt_id_1 == id1 & prompt_id_2 == id2).first()`:
   * the first row stored for `pair`, if any.
   */
  function FindRelation(rs: seq<PromptRelation>, pair: (Id, Id)): (r: Option<nat>)
    ensures r.Some? ==> r.value < |rs| && Joins(rs[r.value], pair)
    ensures r.Some? ==> forall k :: 0 <= k < r.value ==> !Joins(rs[k], pair)
    ensures r.None? <==> forall k :: 0 <= k < |rs| ==> !Joins(rs[k], pair)
  {
    if rs == [] then None
    else if Joins(rs[0], pair) then Some(0)
    else match FindRelation(rs[1..], pair)
      case None =>
        assert forall k :: 1 <= k < |rs| ==> rs[k] == rs[1..][k - 1];
        None
      case Some(k) => Some(k + 1)
  }

  /** Strength recorded for `pair`; 0 when there is no record. */
  function Strength(rs: seq<PromptRelation>, pair: (Id, Id)): nat {
    match FindRelation(rs, pair)
    case None => 0
    case Some(k) => rs[k].strength
  }

  /** Every record stores its ends in canonical order. */
  ghost predicate Canonical(rs: seq<PromptRelation>) {
    forall k :: 0 <= k < |rs| ==> LexLe(rs[k].promptId1, rs[k].promptId2)
  }

  /** At most one record per ordered pair. */
  ghost predicate OnePerPair(rs: seq<PromptRelation>) {
    forall i, j :: 0 <= i < j < |rs| ==>
      !(rs[i].promptId1 == rs[j].promptId1 && rs[i].promptId2 == rs[j].promptId2)
  }

  /** Every record has been reinforced at least once. */
  ghost predicate Positive(rs: seq<PromptRelation>) {
    forall k :: 0 <= k < |rs| ==> rs[k].strength >= 1
  }

  /** The invariant of the relation table. */
  ghost predicate WellFormed(rs: seq<PromptRelation>) {
    Canonical(rs) && OnePerPair(rs) && Positive(rs)
  }

  /**
   * One co-selection of `pair` at time `now`: the existing record gains one
   * unit of strength, or a record of strength 1 is appended.
   */
  function Reinforce(rs: seq<PromptRelation>, pair: (Id, Id), now: Timestamp): seq<PromptRelation> {
    match FindRelation(rs, pair)
    case Some(k) => rs[k := rs[k].(strength := rs[k].strength + 1, updatedAt := now)]
    case None => rs + [PromptRelation(pair.0, pair.1, 1, now, now)]
  }

  /** The canonical pairs of positions `(i, k)` for `i < k < j`, by increasing `k`. */
  function Row(ids: seq<Id>, i: nat, j: nat): seq<(Id, Id)>
    requires i < j <= |ids|
    decreases j
  {
    if j == i + 1 then [] else Row(ids, i, j - 1) + [Canon(ids[i], ids[j - 1])]
  }

  /** The canonical pairs of the first `n` rows of the nested `i < j` loop. */
  function Pairs(ids: seq<Id>, n: nat): seq<(Id, Id)>
    requires n <= |ids|
  {
    if n == 0 then [] else Pairs(ids, n - 1) + Row(ids, n - 1, |ids|)
  }

  /** Every canonical pair of positions `i < j` of a selection, in loop order. */
  function SelectionPairs(ids: seq<Id>): seq<(Id, Id)> {
    Pairs(ids, |ids|)
  }

  /** Applies one reinforcement per listed pair, left to right. */
  function ReinforceAll(rs: seq<PromptRelation>, ps: seq<(Id, Id)>, now: Timestamp): seq<PromptRelation>
    decreases |ps|
  {
    if ps == [] then rs
    else Reinforce(ReinforceAll(rs, ps[..|ps| - 1], now), ps[|ps| - 1], now)
  }

  /** The relation table after `add_prompt_relations(ids)` at time `now`. */
  function Reinforced(rs: seq<PromptRelation>, ids: seq<Id>, now: Timestamp): seq<PromptRelation> {
    ReinforceAll(rs, SelectionPairs(ids), now)
  }

  /** `delete_prompt`'s cascade: the records that do not touch `id`, in table order. */
  function Detach(rs: seq<PromptRelation>, id: Id): seq<PromptRelation> {
    if rs == [] then []
    else if Touches(rs[0], id) then Detach(rs[1..], id)
    else [rs[0]] + Detach(rs[1..], id)
  }

  /** The cascade removes every record touching `id`, and keeps every other record as often as the table holds it. */
  lemma {:induction false} DetachCount(rs: seq<PromptRelation>, id: Id)
    ensures forall r :: multiset(Detach(rs, id))[r] == if Touches(r, id) then 0 else multiset(rs)[r]
  {
    if rs != [] {
      assert rs == [rs[0]] + rs[1..];
      DetachCount(rs[1..], id);
    }
  }

  // ---------------------------------------------------------------------
  // Reinforcement

  /** One co-selection raises the strength of its own pair by one and of no other pair. */
  lemma ReinforceStrength(rs: seq<PromptRelation>, pair: (Id, Id), q: (Id, Id), now: Timestamp)
    ensures Strength(Reinforce(rs, pair, now), q) == Strength(rs, q) + (if q == pair then 1 else 0)
  {
    match FindRelation(rs, pair)
    case Some(k) => BumpStrength(rs, pair, q, now, k);
    case None => AppendStrength(rs, pair, q, now);
  }

  /** Bumping the record found for `pair` changes the strength of `pair` alone. */
  lemma BumpStrength(rs: seq<PromptRelation>, pair: (Id, Id), q: (Id, Id), now: Timestamp, k: nat)
    requires FindRelation(rs, pair) == Some(k)
    ensures Strength(Reinforce(rs, pair, now), q) == Strength(rs, q) + (if q == pair then 1 else 0)
  {
    var rs' := rs[k := rs[k].(strength := rs[k].strength + 1, updatedAt := now)];
    assert Reinforce(rs, pair, now) == rs';
    assert forall i :: 0 <= i < |rs| ==> (Joins(rs'[i], q) <==> Joins(rs[i], q));
    match FindRelation(rs, q)
    case None =>
      assert FindRelation(rs', q) == None;
    case Some(j) =>
      assert Joins(rs'[j], q);
      var j' := FindRelation(rs', q).value;
      assert !Joins(rs[j'], q) ==> j' < j;
      assert j' == j;
  }

  /** Appending a record for a `pair` that has none gives it strength 1 and changes nothing else. */
  lemma AppendStrength(rs: seq<PromptRelation>, pair: (Id, Id), q: (Id, Id), now: Timestamp)
    requires FindRelation(rs, pair).None?
    ensures Strength(Reinforce(rs, pair, now), q) == Strength(rs, q) + (if q == pair then 1 else 0)
  {
    var x := PromptRelation(pair.0, pair.1, 1, now, now);
    FindAppend(rs, x, q);
    assert Joins(x, q) <==> q == pair;
  }

  /** A lookup in a table with one more record at the end finds the old match, or else the new record. */
  lemma {:induction false} FindAppend(rs: seq<PromptRelation>, x: PromptRelation, q: (Id, Id))
    ensures FindRelation(rs + [x], q)
      == match FindRelation(rs, q)
         case Some(j) => Some(j)
         case None => if Joins(x, q) then Some(|rs|) else None
    decreases |rs|
  {
    if rs != [] && !Joins(rs[0], q) {
      assert (rs + [x])[1..] == rs[1..] + [x];
      FindAppend(rs[1..], x, q);
    }
  }

  /** The strength of each pair grows by the number of times it is listed. */
  lemma {:induction false} ReinforceAllStrength(rs: seq<PromptRelation>, ps: seq<(Id, Id)>, q: (Id, Id), now: Timestamp)
    ensures Strength(ReinforceAll(rs, ps, now), q) == Strength(rs, q) + Occurrences(ps, q)
    decreases |ps|
  {
    if ps != [] {
      var init, last := ps[..|ps| - 1], ps[|ps| - 1];
      assert ps == init + [last];
      ReinforceAllStrength(rs, init, q, now);
      ReinforceStrength(ReinforceAll(rs, init, now), last, q, now);
    }
  }

  /** One step keeps the table well formed when the pair is canonical. */
  lemma ReinforceWellFormed(rs: seq<PromptRelation>, pair: (Id, Id), now: Timestamp)
    requires WellFormed(rs) && LexLe(pair.0, pair.1)
    ensures WellFormed(Reinforce(rs, pair, now))
  {
  }

  /**
   * What one step leaves alone: old records keep their ends, a record for
   * another pair is unchanged, and a record it appends is for `pair`.
   */
  lemma ReinforceFrame(rs: seq<PromptRelation>, pair: (Id, Id), now: Timestamp)
    ensures var rs' := Reinforce(rs, pair, now);
      |rs| <= |rs'| <= |rs| + 1
      && (forall k :: 0 <= k < |rs| ==> Joins(rs'[k], (rs[k].promptId1, rs[k].promptId2)))
      && (forall k :: 0 <= k < |rs| && !Joins(rs[k], pair) ==> rs'[k] == rs[k])
      && (forall k :: |rs| <= k < |rs'| ==> Joins(rs'[k], pair) && rs'[k].strength == 1)
  {
  }

  /** The frame of a sequence of steps: records of unlisted pairs are untouched. */
  lemma {:induction false} ReinforceAllFrame(rs: seq<PromptRelation>, ps: seq<(Id, Id)>, now: Timestamp)
    ensures var rs' := ReinforceAll(rs, ps, now);
      |rs| <= |rs'|
      && (forall k :: 0 <= k < |rs| ==> Joins(rs'[k], (rs[k].promptId1, rs[k].promptId2)))
      && (forall k :: 0 <= k < |rs| && (rs[k].promptId1, rs[k].promptId2) !in ps ==> rs'[k] == rs[k])
      && (forall k :: |rs| <= k < |rs'| ==> (rs'[k].promptId1, rs'[k].promptId2) in ps)
    decreases |ps|
  {
    if ps != [] {
      var init, last := ps[..|ps| - 1], ps[|ps| - 1];
      assert ps == init + [last];
      ReinforceAllFrame(rs, init, now);
      var mid := ReinforceAll(rs, init, now);
      ReinforceFrame(mid, last, now);
    }
  }

  /** A sequence of steps over canonical pairs keeps the table well formed. */
  lemma {:induction false} ReinforceAllWellFormed(rs: seq<PromptRelation>, ps: seq<(Id, Id)>, now: Timestamp)
    requires WellFormed(rs)
    requires forall k :: 0 <= k < |ps| ==> LexLe(ps[k].0, ps[k].1)
    ensures WellFormed(ReinforceAll(rs, ps, now))
    decreases |ps|
  {
    if ps != [] {
      ReinforceAllWellFormed(rs, ps[..|ps| - 1], now);
      ReinforceWellFormed(ReinforceAll(rs, ps[..|ps| - 1], now), ps[|ps| - 1], now);
    }
  }

  // ---------------------------------------------------------------------
  // The pairs of a selection

  /** Every pair row `i` lists up to `j` names positions `i < k < j`. */
  lemma {:induction false} RowSound(ids: seq<Id>, i: nat, j: nat, q: (Id, Id)) returns (k: nat)
    requires i < j <= |ids| && q in Row(ids, i, j)
    ensures i < k < j && q == Canon(ids[i], ids[k])
    decreases j
  {
    if q in Row(ids, i, j - 1) {
      k := RowSound(ids, i, j - 1, q);
    } else {
      k := j - 1;
    }
  }

  /** Row `i` up to `j` lists the pair of positions `i < k` for every `k < j`. */
  lemma {:induction false} RowComplete(ids: seq<Id>, i: nat, j: nat, k: nat)
    requires i < k < j <= |ids|
    ensures Canon(ids[i], ids[k]) in Row(ids, i, j)
    decreases j
  {
    if k < j - 1 {
      RowComplete(ids, i, j - 1, k);
    }
  }

  /** Every pair the first `n` rows list names positions `i < k` with `i < n`. */
  lemma {:induction false} PairsSound(ids: seq<Id>, n: nat, q: (Id, Id)) returns (i: nat, k: nat)
    requires n <= |ids| && q in Pairs(ids, n)
    ensures i < n && i < k < |ids| && q == Canon(ids[i], ids[k])
    decreases n
  {
    var prev, row := Pairs(ids, n - 1), Row(ids, n - 1, |ids|);
    assert Pairs(ids, n) == prev + row;
    InEither(prev, row, q);
    if q in prev {
      i, k := PairsSound(ids, n - 1, q);
      assert q == Canon(ids[i], ids[k]);
    } else {
      i := n - 1;
      k := RowSound(ids, n - 1, |ids|, q);
      assert q == Canon(ids[i], ids[k]);
    }
  }

  /** The first `n` rows list the pair of positions `i < k` for every `i < n`. */
  lemma {:induction false} PairsComplete(ids: seq<Id>, n: nat, i: nat, k: nat)
    requires i < n <= |ids| && i < k < |ids|
    ensures Canon(ids[i], ids[k]) in Pairs(ids, n)
    decreases n
  {
    if i < n - 1 {
      PairsComplete(ids, n - 1, i, k);
      InLeft(Pairs(ids, n - 1), Row(ids, n - 1, |ids|), Canon(ids[i], ids[k]));
    } else {
      RowComplete(ids, i, |ids|, k);
      InRight(Pairs(ids, n - 1), Row(ids, n - 1, |ids|), Canon(ids[i], ids[k]));
    }
  }

  /** An element of `a` is an element of `a + b`. */
  lemma InLeft<T>(a: seq<T>, b: seq<T>, x: T)
    requires x in a
    ensures x in a + b
  {
    var i :| 0 <= i < |a| && a[i] == x;
    assert (a + b)[i] == x;
  }

  /** An element of `a + b` comes from `a` or from `b`. */
  lemma InEither<T>(a: seq<T>, b: seq<T>, x: T)
    requires x in a + b
    ensures x in a || x in b
  {
    var i :| 0 <= i < |a + b| && (a + b)[i] == x;
    if i >= |a| {
      assert b[i - |a|] == x;
    }
  }

  /** An element of `b` is an element of `a + b`. */
  lemma InRight<T>(a: seq<T>, b: seq<T>, x: T)
    requires x in b
    ensures x in a + b
  {
    var i :| 0 <= i < |b| && b[i] == x;
    assert (a + b)[|a| + i] == x;
  }

  /** A selection lists exactly the canonical pairs of its positions `i < j`, each canonical. */
  lemma SelectionPairsMembers(ids: seq<Id>, q: (Id, Id))
    ensures q in SelectionPairs(ids) <==> exists i, j :: 0 <= i < j < |ids| && q == Canon(ids[i], ids[j])
    ensures q in SelectionPairs(ids) ==> LexLe(q.0, q.1)
  {
    if q in SelectionPairs(ids) {
      var i, j := PairsSound(ids, |ids|, q);
      CanonOrdered(ids[i], ids[j]);
    }
    if exists i, j :: 0 <= i < j < |ids| && q == Canon(ids[i], ids[j]) {
      var i, j :| 0 <= i < j < |ids| && q == Canon(ids[i], ids[j]);
      PairsComplete(ids, |ids|, i, j);
    }
  }

  /** A selection of fewer than two ids lists no pair. */
  lemma ShortSelection(ids: seq<Id>)
    requires |ids| < 2
    ensures SelectionPairs(ids) == []
  {
    if |ids| == 1 {
      assert Pairs(ids, 1) == Pairs(ids, 0) + Row(ids, 0, 1);
    }
  }

  /** A selection of fewer than two ids leaves the relation table as it was. */
  lemma ShortSelectionUnchanged(rs: seq<PromptRelation>, ids: seq<Id>, now: Timestamp)
    requires |ids| < 2
    ensures Reinforced(rs, ids, now) == rs
  {
    ShortSelection(ids);
  }

  /** No id occurs twice in the selection. */
  ghost predicate Distinct(ids: seq<Id>) {
    forall i, j :: 0 <= i < j < |ids| ==> ids[i] != ids[j]
  }

  /** With distinct ids, two position pairs `i < k` and `x < y` name the same canonical pair only if they are equal. */
  lemma CanonOfPositions(ids: seq<Id>, i: nat, k: nat, x: nat, y: nat)
    requires Distinct(ids) && i < k < |ids| && x < y < |ids|
    ensures Canon(ids[i], ids[k]) == Canon(ids[x], ids[y]) <==> i == x && k == y
  {
    CanonOrdered(ids[i], ids[k]);
    CanonOrdered(ids[x], ids[y]);
    if Canon(ids[i], ids[k]) == Canon(ids[x], ids[y]) {
      if ids[i] == ids[x] {
        DistinctAt(ids, i, x);
        DistinctAt(ids, k, y);
      } else {
        DistinctAt(ids, i, y);
        DistinctAt(ids, k, x);
      }
    }
  }

  /** In a selection of distinct ids, equal ids sit at the same position. */
  lemma DistinctAt(ids: seq<Id>, a: nat, b: nat)
    requires Distinct(ids) && a < |ids| && b < |ids| && ids[a] == ids[b]
    ensures a == b
  {
  }

  /** How many times `t` is listed in `s`. */
  function Occurrences<T(==)>(s: seq<T>, t: T): nat
    decreases |s|
  {
    if s == [] then 0 else Occurrences(s[..|s| - 1], t) + (if s[|s| - 1] == t then 1 else 0)
  }

  /** An element is counted at least once exactly when it is listed. */
  lemma {:induction false} OccurrencesPositive<T>(s: seq<T>, t: T)
    ensures Occurrences(s, t) > 0 <==> t in s
    decreases |s|
  {
    if s != [] {
      var init := s[..|s| - 1];
      OccurrencesPositive(init, t);
      assert s == init + [s[|s| - 1]];
      if t in s && s[|s| - 1] != t {
        var k :| 0 <= k < |s| && s[k] == t;
        assert init[k] == t;
      }
    }
  }

  /** Appending one element adds one to its count and nothing to any other. */
  lemma CountSnoc<T>(s: seq<T>, c: T, t: T)
    ensures Occurrences(s + [c], t) == Occurrences(s, t) + (if c == t then 1 else 0)
  {
    assert (s + [c])[..|s|] == s;
  }

  /** Counts add up over a concatenation. */
  lemma {:induction false} CountAppend<T>(a: seq<T>, b: seq<T>, t: T)
    ensures Occurrences(a + b, t) == Occurrences(a, t) + Occurrences(b, t)
    decreases |b|
  {
    if b == [] {
      assert a + b == a;
    } else {
      var init, last := b[..|b| - 1], b[|b| - 1];
      assert a + b == (a + init) + [last];
      CountAppend(a, init, t);
      CountSnoc(a + init, last, t);
    }
  }

  /** With distinct ids, row `i` of the loop up to `j` names the pair of positions `x < y` once if `x == i` and `y < j`, else never. */
  lemma {:induction false} RowCount(ids: seq<Id>, i: nat, j: nat, x: nat, y: nat)
    requires Distinct(ids) && i < j <= |ids| && x < y < |ids|
    ensures Occurrences(Row(ids, i, j), Canon(ids[x], ids[y])) == if x == i && y < j then 1 else 0
    decreases j
  {
    if j > i + 1 {
      RowCount(ids, i, j - 1, x, y);
      CanonOfPositions(ids, i, j - 1, x, y);
      CountSnoc(Row(ids, i, j - 1), Canon(ids[i], ids[j - 1]), Canon(ids[x], ids[y]));
    }
  }

  /** With distinct ids, the first `n` rows name the pair of positions `x < y` once if `x < n`, else never. */
  lemma {:induction false} PairsCount(ids: seq<Id>, n: nat, x: nat, y: nat)
    requires Distinct(ids) && n <= |ids| && x < y < |ids|
    ensures Occurrences(Pairs(ids, n), Canon(ids[x], ids[y])) == if x < n then 1 else 0
    decreases n
  {
    if n > 0 {
      PairsCount(ids, n - 1, x, y);
      RowCount(ids, n - 1, |ids|, x, y);
      CountAppend(Pairs(ids, n - 1), Row(ids, n - 1, |ids|), Canon(ids[x], ids[y]));
    }
  }

  // ---------------------------------------------------------------------
  // add_prompt_relations as a whole

  /**
   * Every pair's strength grows by the number of position pairs `i < j` of
   * the selection that name it; pairs the selection does not name keep
   * their strength.
   */
  lemma ReinforcedStrength(rs: seq<PromptRelation>, ids: seq<Id>, q: (Id, Id), now: Timestamp)
    ensures Strength(Reinforced(rs, ids, now), q) == Strength(rs, q) + Occurrences(SelectionPairs(ids), q)
    ensures (forall i, j :: 0 <= i < j < |ids| ==> q != Canon(ids[i], ids[j]))
      ==> Strength(Reinforced(rs, ids, now), q) == Strength(rs, q)
  {
    ReinforceAllStrength(rs, SelectionPairs(ids), q, now);
    SelectionPairsMembers(ids, q);
    OccurrencesPositive(SelectionPairs(ids), q);
  }

  /** For a selection of distinct ids every pair in it gains exactly one unit of strength. */
  lemma DistinctSelectionStrength(rs: seq<PromptRelation>, ids: seq<Id>, x: nat, y: nat, now: Timestamp)
    requires Distinct(ids) && x < y < |ids|
    ensures Strength(Reinforced(rs, ids, now), Canon(ids[x], ids[y])) == Strength(rs, Canon(ids[x], ids[y])) + 1
  {
    ReinforceAllStrength(rs, SelectionPairs(ids), Canon(ids[x], ids[y]), now);
    PairsCount(ids, |ids|, x, y);
  }

  /**
   * `add_prompt_relations` keeps the ends of every old record, leaves the records of unselected pairs as they were,
   * and only appends records for selected pairs.
   */
  lemma ReinforcedFrame(rs: seq<PromptRelation>, ids: seq<Id>, now: Timestamp)
    ensures var rs' := Reinforced(rs, ids, now);
      |rs| <= |rs'|
      && (forall k :: 0 <= k < |rs| ==> Joins(rs'[k], (rs[k].promptId1, rs[k].promptId2)))
      && (forall k :: 0 <= k < |rs| && (rs[k].promptId1, rs[k].promptId2) !in SelectionPairs(ids) ==> rs'[k] == rs[k])
      && (forall k :: |rs| <= k < |rs'| ==> (rs'[k].promptId1, rs'[k].promptId2) in SelectionPairs(ids))
  {
    ReinforceAllFrame(rs, SelectionPairs(ids), now);
  }

  /** `add_prompt_relations` keeps the relation table well formed. */
  lemma ReinforcedWellFormed(rs: seq<PromptRelation>, ids: seq<Id>, now: Timestamp)
    requires WellFormed(rs)
    ensures WellFormed(Reinforced(rs, ids, now))
  {
    var ps := SelectionPairs(ids);
    forall k | 0 <= k < |ps| ensures LexLe(ps[k].0, ps[k].1) {
      SelectionPairsMembers(ids, ps[k]);
    }
    ReinforceAllWellFormed(rs, ps, now);
  }

  // ---------------------------------------------------------------------
  // Cascade

  /** A record for a new canonical pair can be put in front of a well-formed table. */
  lemma ConsWellFormed(x: PromptRelation, d: seq<PromptRelation>)
    requires WellFormed(d) && LexLe(x.promptId1, x.promptId2) && x.strength >= 1
    requires forall k :: 0 <= k < |d| ==> !Joins(d[k], (x.promptId1, x.promptId2))
    ensures WellFormed([x] + d)
  {
    var r := [x] + d;
    assert forall k :: 1 <= k < |r| ==> r[k] == d[k - 1];
  }

  /** The cascade keeps exactly the records that do not touch `id`. */
  lemma DetachMembers(rs: seq<PromptRelation>, id: Id)
    ensures forall r :: r in Detach(rs, id) <==> r in rs && !Touches(r, id)
  {
    DetachCount(rs, id);
    forall r ensures r in Detach(rs, id) <==> r in rs && !Touches(r, id) {
      assert r in Detach(rs, id) <==> multiset(Detach(rs, id))[r] > 0;
      assert r in rs <==> multiset(rs)[r] > 0;
    }
  }

  /** Removing the records that touch an id keeps the table well formed. */
  lemma {:induction false} DetachWellFormed(rs: seq<PromptRelation>, id: Id)
    requires WellFormed(rs)
    ensures WellFormed(Detach(rs, id))
    decreases |rs|
  {
    if rs != [] {
      var tail := rs[1..];
      assert forall k :: 0 <= k < |tail| ==> tail[k] == rs[k + 1];
      DetachWellFormed(tail, id);
      if !Touches(rs[0], id) {
        var d := Detach(tail, id);
        DetachCount(tail, id);
        forall k | 0 <= k < |d| ensures !Joins(d[k], (rs[0].promptId1, rs[0].promptId2)) {
          assert multiset(d)[d[k]] > 0;
          assert d[k] in tail;
          var m :| 0 <= m < |tail| && tail[m] == d[k];
          assert rs[m + 1] == d[k];
        }
        ConsWellFormed(rs[0], d);
      }
    }
  }

  /** The cascade can be done piecewise: detaching from two halves and joining them. */
  lemma {:induction false} DetachAppend(a: seq<PromptRelation>, b: seq<PromptRelation>, id: Id)
    ensures Detach(a + b, id) == Detach(a, id) + Detach(b, id)
    decreases |a|
  {
    if a == [] {
      assert a + b == b;
    } else {
      assert (a + b)[1..] == a[1..] + b;
      DetachAppend(a[1..], b, id);
    }
  }

  /** Reinforcing along `a + b` is reinforcing along `a`, then along `b`. */
  lemma {:induction false} ReinforceAllAppend(rs: seq<PromptRelation>, a: seq<(Id, Id)>, b: seq<(Id, Id)>, now: Timestamp)
    ensures ReinforceAll(rs, a + b, now) == ReinforceAll(ReinforceAll(rs, a, now), b, now)
    decreases |b|
  {
    if b == [] {
      assert a + b == a;
    } else {
      assert (a + b)[..|a + b| - 1] == a + b[..|b| - 1];
      ReinforceAllAppend(rs, a, b[..|b| - 1], now);
    }
  }
}
