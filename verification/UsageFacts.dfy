/** Deduplicated usage facts with incrementally kept buckets, compaction and a capacity limit. */
module UsageFacts {
  import opened Common
  import PlaceStep

  const MAX_BUCKETS := 256
  const MAX_SOURCES := 64
  const MAX_MODELS_PER_SOURCE := 16

  /** `direct` is the evidence class; `own` the relation, every other relation being a child's. */
  datatype Source = Source(ref: int, direct: bool, own: bool)

  /** The five token classes of a response; None when the log does not report one. */
  datatype Tokens = Tokens(input: Option<nat>, cacheRead: Option<nat>, cacheWrite: Option<nat>,
          output: Option<nat>, reasoning: Option<nat>)
  /** `at` is the time stamp of the response, in milliseconds. */
  datatype Fact = Fact(claude: bool, model: Option<int>, at: int, tokens: Tokens)

  /** A stored fact with the placement recorded when it was counted. */
  datatype Item = Item(source: Source, fact: Fact, placed: PlaceStep.Placement)

  datatype Key = Key(ref: int, model: Option<int>, placed: PlaceStep.Placement)
  datatype Counts = Counts(input: int, cacheRead: int, cacheWrite: int, output: int, reasoning: int)
  datatype Group = Group(responses: int, sums: Counts, nulls: Counts)

  const NONE := Counts(0, 0, 0, 0, 0)
  const EMPTY := Group(0, NONE, NONE)

  function KeyOf(i: Item): Key {
    Key(i.source.ref, i.fact.model, i.placed)
  }

  function Coarse(k: Key): Key {
    k.(placed := PlaceStep.Outside)
  }

  function BucketOf(i: Item, compacted: bool): Key {
    if compacted then Coarse(KeyOf(i)) else KeyOf(i)
  }

  function PlusCounts(a: Counts, b: Counts): Counts {
    Counts(a.input + b.input, a.cacheRead + b.cacheRead, a.cacheWrite + b.cacheWrite, a.output + b.output,
            a.reasoning + b.reasoning)
  }

  function MinusCounts(a: Counts, b: Counts): Counts {
    Counts(a.input - b.input, a.cacheRead - b.cacheRead, a.cacheWrite - b.cacheWrite, a.output - b.output,
            a.reasoning - b.reasoning)
  }

  function Plus(a: Group, b: Group): Group {
    Group(a.responses + b.responses, PlusCounts(a.sums, b.sums), PlusCounts(a.nulls, b.nulls))
  }

  function Minus(a: Group, b: Group): Group {
    Group(a.responses - b.responses, MinusCounts(a.sums, b.sums), MinusCounts(a.nulls, b.nulls))
  }

  function Reported(t: Option<nat>): int {
    if t.Some? then t.value else 0
  }

  function Absent(t: Option<nat>): int {
    if t.Some? then 0 else 1
  }

  /** What one fact contributes to its bucket. */
  function Unit(t: Tokens): Group {
    Group(1,
          Counts(Reported(t.input), Reported(t.cacheRead), Reported(t.cacheWrite), Reported(t.output),
                  Reported(t.reasoning)),
          Counts(Absent(t.input), Absent(t.cacheRead), Absent(t.cacheWrite), Absent(t.output), Absent(t.reasoning)))
  }

  // ---- totals recomputed from the stored facts ----

  /** Sum of `v` over all stored facts. */
  ghost function Total(items: map<int, Item>, v: Item -> Group): Group
    decreases |items|
  {
    if items.Keys == {} then EMPTY
    else
      var id := Min(items.Keys);
      Plus(v(items[id]), Total(items - {id}, v))
  }

  lemma PlusSwaps(a: Group, b: Group, c: Group)
    ensures Plus(a, Plus(b, c)) == Plus(b, Plus(a, c))
  {
  }

  lemma PlusMixes(a: Group, b: Group, c: Group, d: Group)
    ensures Plus(Plus(a, b), Plus(c, d)) == Plus(Plus(a, c), Plus(b, d))
  {
  }

  lemma {:induction false} TotalOf(items: map<int, Item>, v: Item -> Group, id: int)
    requires id in items
    ensures Total(items, v) == Plus(v(items[id]), Total(items - {id}, v))
    decreases |items|
  {
    var first := Min(items.Keys);
    if first != id {
      TotalOf(items - {first}, v, id);
      TotalOf(items - {id}, v, first);
      assert items - {first} - {id} == items - {id} - {first};
      PlusSwaps(v(items[first]), v(items[id]), Total(items - {id} - {first}, v));
    }
  }

  lemma {:induction false} TotalSplits(items: map<int, Item>, v: Item -> Group, a: Item -> Group, b: Item -> Group)
    requires forall id | id in items :: v(items[id]) == Plus(a(items[id]), b(items[id]))
    ensures Total(items, v) == Plus(Total(items, a), Total(items, b))
    decreases |items|
  {
    if items.Keys != {} {
      var id := Min(items.Keys);
      var rest := items - {id};
      TotalSplits(rest, v, a, b);
      PlusMixes(a(items[id]), b(items[id]), Total(rest, a), Total(rest, b));
    }
  }

  lemma {:induction false} TotalSame(items: map<int, Item>, a: Item -> Group, b: Item -> Group)
    requires forall id | id in items :: a(items[id]) == b(items[id])
    ensures Total(items, a) == Total(items, b)
    decreases |items|
  {
    if items.Keys != {} {
      TotalSame(items - {Min(items.Keys)}, a, b);
    }
  }

  lemma {:induction false} TotalEmpty(items: map<int, Item>, v: Item -> Group)
    requires forall id | id in items :: v(items[id]) == EMPTY
    ensures Total(items, v) == EMPTY
    decreases |items|
  {
    if items.Keys != {} {
      TotalEmpty(items - {Min(items.Keys)}, v);
    }
  }

  /** When every fact weighs zero or one response, the response total counts those that weigh one. */
  lemma {:induction false} TotalResponses(items: map<int, Item>, v: Item -> Group)
    requires forall id | id in items :: v(items[id]).responses in {0, 1}
    ensures 0 <= Total(items, v).responses <= |items|
    ensures Total(items, v).responses == 0 <==> forall id | id in items :: v(items[id]).responses == 0
    ensures (forall id | id in items :: v(items[id]).responses == 1) ==> Total(items, v).responses == |items|
    decreases |items|
  {
    if items.Keys != {} {
      var id := Min(items.Keys);
      var rest := items - {id};
      TotalResponses(rest, v);
      assert items.Keys == rest.Keys + {id} && |items| == |items.Keys| && |rest| == |rest.Keys|;
      assert forall x | x in items :: x == id || (x in rest && rest[x] == items[x]);
    }
  }

  /** A fact's contribution to bucket `k`. */
  function InBucket(i: Item, k: Key, compacted: bool): Group {
    if BucketOf(i, compacted) == k then Unit(i.fact.tokens) else EMPTY
  }

  ghost function Bucket(items: map<int, Item>, k: Key, compacted: bool): Group {
    Total(items, i => InBucket(i, k, compacted))
  }

  ghost predicate Occupied(items: map<int, Item>, k: Key, compacted: bool) {
    exists id | id in items :: BucketOf(items[id], compacted) == k
  }

  /** `groups` are the buckets recomputed from the stored facts. */
  ghost predicate Recomputed(items: map<int, Item>, groups: map<Key, Group>, compacted: bool) {
    && (forall k :: k in groups <==> Occupied(items, k, compacted))
    && (forall k | k in groups :: groups[k] == Bucket(items, k, compacted))
  }

  lemma TotalInsert(items: map<int, Item>, id: int, i: Item, v: Item -> Group)
    requires id !in items
    ensures Total(items[id := i], v) == Plus(v(i), Total(items, v))
  {
    TotalOf(items[id := i], v, id);
    assert items[id := i] - {id} == items;
  }

  lemma BucketInsert(items: map<int, Item>, id: int, i: Item, k: Key, compacted: bool)
    requires id !in items
    ensures Bucket(items[id := i], k, compacted) == Plus(InBucket(i, k, compacted), Bucket(items, k, compacted))
  {
    TotalInsert(items, id, i, x => InBucket(x, k, compacted));
  }

  /** Inserting a fact changes its own bucket by its tokens and no other. */
  lemma BucketChange(items: map<int, Item>, id: int, i: Item, k: Key, compacted: bool)
    requires id !in items
    ensures k == BucketOf(i, compacted) ==>
              && Bucket(items[id := i], k, compacted) == Plus(Bucket(items, k, compacted), Unit(i.fact.tokens))
              && Minus(Bucket(items[id := i], k, compacted), Unit(i.fact.tokens)) == Bucket(items, k, compacted)
    ensures k != BucketOf(i, compacted) ==> Bucket(items[id := i], k, compacted) == Bucket(items, k, compacted)
  {
    BucketInsert(items, id, i, k, compacted);
    PlusCommutes(Unit(i.fact.tokens), Bucket(items, k, compacted));
    PlusCommutes(EMPTY, Bucket(items, k, compacted));
  }

  lemma PlusCommutes(a: Group, b: Group)
    ensures Plus(a, b) == Plus(b, a) && Minus(Plus(b, a), a) == b && Plus(EMPTY, b) == b && Plus(b, EMPTY) == b
  {
  }

  lemma OccupiedInsert(items: map<int, Item>, id: int, i: Item, k: Key, compacted: bool)
    requires id !in items
    ensures Occupied(items[id := i], k, compacted) <==> k == BucketOf(i, compacted) || Occupied(items, k, compacted)
  {
    var more := items[id := i];
    assert more[id] == i;
    if y :| y in items && BucketOf(items[y], compacted) == k {
      assert more[y] == items[y];
    }
  }

  lemma BucketEmpty(items: map<int, Item>, k: Key, compacted: bool)
    ensures Bucket(items, k, compacted).responses >= 0
    ensures Bucket(items, k, compacted).responses == 0 <==> !Occupied(items, k, compacted)
    ensures !Occupied(items, k, compacted) ==> Bucket(items, k, compacted) == EMPTY
  {
    var v := (i: Item) => InBucket(i, k, compacted);
    TotalResponses(items, v);
    if !Occupied(items, k, compacted) {
      TotalEmpty(items, v);
    }
  }

  /** Adding (`sign` 1) or subtracting (`sign` -1) one fact's tokens. */
  function Adjusted(g: Group, t: Tokens, sign: int): Group {
    if sign > 0 then Plus(g, Unit(t)) else Minus(g, Unit(t))
  }

  lemma AddedKeys(items: map<int, Item>, groups: map<Key, Group>, compacted: bool, id: int, i: Item, k: Key)
    requires id !in items && Recomputed(items, groups, compacted)
    ensures k in groups || k == BucketOf(i, compacted) <==> Occupied(items[id := i], k, compacted)
  {
    OccupiedInsert(items, id, i, k, compacted);
  }

  lemma AddedGroup(items: map<int, Item>, groups: map<Key, Group>, compacted: bool, id: int, i: Item)
    requires id !in items && Recomputed(items, groups, compacted)
    ensures var k := BucketOf(i, compacted);
            Adjusted(if k in groups then groups[k] else EMPTY, i.fact.tokens, 1) == Bucket(items[id := i], k, compacted)
  {
    var k := BucketOf(i, compacted);
    BucketEmpty(items, k, compacted);
    BucketChange(items, id, i, k, compacted);
  }

  lemma AddFact(items: map<int, Item>, groups: map<Key, Group>, compacted: bool, id: int, i: Item, k: Key, g: Group)
    requires id !in items && Recomputed(items, groups, compacted) && k == BucketOf(i, compacted)
    requires g == Bucket(items[id := i], k, compacted)
    ensures Recomputed(items[id := i], groups[k := g], compacted)
  {
    var after := groups[k := g];
    forall x: Key ensures x in after <==> Occupied(items[id := i], x, compacted) {
      AddedKeys(items, groups, compacted, id, i, x);
    }
    forall x | x in groups && x != k ensures groups[x] == Bucket(items[id := i], x, compacted) {
      BucketChange(items, id, i, x, compacted);
    }
  }

  lemma RemovedGroup(items: map<int, Item>, groups: map<Key, Group>, compacted: bool, id: int)
    requires id in items && Recomputed(items, groups, compacted)
    ensures var k := BucketOf(items[id], compacted);
            k in groups && Adjusted(groups[k], items[id].fact.tokens, -1) == Bucket(items - {id}, k, compacted)
  {
    var i := items[id];
    var k := BucketOf(i, compacted);
    assert (items - {id})[id := i] == items;
    assert Occupied(items, k, compacted);
    BucketChange(items - {id}, id, i, k, compacted);
  }

  lemma RemoveFact(items: map<int, Item>, groups: map<Key, Group>, compacted: bool, id: int, k: Key, g: Group,
          after: map<Key, Group>)
    requires id in items && Recomputed(items, groups, compacted) && k == BucketOf(items[id], compacted)
    requires g == Bucket(items - {id}, k, compacted)
    requires after == if g.responses == 0 then groups - {k} else groups[k := g]
    ensures Recomputed(items - {id}, after, compacted)
  {
    var i := items[id];
    var less := items - {id};
    assert less[id := i] == items;
    BucketEmpty(less, k, compacted);
    forall x: Key ensures x in after <==> Occupied(less, x, compacted) {
      OccupiedInsert(less, id, i, x, compacted);
    }
    forall x | x in after && x != k ensures after[x] == Bucket(less, x, compacted) {
      BucketChange(less, id, i, x, compacted);
    }
  }

  // ---- compaction ----

  function InDone(i: Item, done: set<Key>, k: Key): Group {
    if KeyOf(i) in done && Coarse(KeyOf(i)) == k then Unit(i.fact.tokens) else EMPTY
  }

  /** Total of the facts whose fine bucket was merged already and whose coarse bucket is `k`. */
  ghost function Partial(items: map<int, Item>, done: set<Key>, k: Key): Group {
    Total(items, i => InDone(i, done, k))
  }

  function NextOnly(i: Item, next: Key, k: Key): Group {
    if Coarse(next) == k then InBucket(i, next, false) else EMPTY
  }

  lemma ChooseSplits(u: Group, earlier: bool, now: bool)
    requires !(earlier && now)
    ensures (if earlier || now then u else EMPTY) == Plus(if earlier then u else EMPTY, if now then u else EMPTY)
  {
    PlusCommutes(EMPTY, u);
  }

  lemma InDoneSplits(i: Item, done: set<Key>, next: Key, k: Key)
    requires next !in done
    ensures InDone(i, done + {next}, k) == Plus(InDone(i, done, k), NextOnly(i, next, k))
  {
    var key := KeyOf(i);
    assert BucketOf(i, false) == key;
    ChooseSplits(Unit(i.fact.tokens), key in done && Coarse(key) == k, key == next && Coarse(key) == k);
  }

  lemma PartialGrows(items: map<int, Item>, done: set<Key>, next: Key, k: Key)
    requires next !in done
    ensures Partial(items, done + {next}, k) ==
            Plus(Partial(items, done, k), if Coarse(next) == k then Bucket(items, next, false) else EMPTY)
  {
    forall id | id in items
      ensures InDone(items[id], done + {next}, k) == Plus(InDone(items[id], done, k), NextOnly(items[id], next, k)) {
      InDoneSplits(items[id], done, next, k);
    }
    TotalSplits(items, i => InDone(i, done + {next}, k), i => InDone(i, done, k), i => NextOnly(i, next, k));
    if Coarse(next) == k {
      TotalSame(items, i => NextOnly(i, next, k), i => InBucket(i, next, false));
    } else {
      TotalEmpty(items, i => NextOnly(i, next, k));
    }
  }

  method Compact(ghost items: map<int, Item>, groups: map<Key, Group>) returns (compact: map<Key, Group>)
    requires Recomputed(items, groups, false)
    ensures Recomputed(items, compact, true)
  {
    compact := map[];
    var todo := groups.Keys;
    ghost var done: set<Key> := {};
    forall k ensures Partial(items, {}, k) == EMPTY {
      TotalEmpty(items, i => InDone(i, {}, k));
    }
    while todo != {}
      invariant todo + done == groups.Keys && todo !! done
      invariant forall k :: k in compact <==> exists x | x in done :: Coarse(x) == k
      invariant forall k :: (if k in compact then compact[k] else EMPTY) == Partial(items, done, k)
      decreases todo
    {
      ghost var w := Member(todo);
      var old_ :| old_ in todo;
      todo := todo - {old_};
      var k := Coarse(old_);
      var merged := if k in compact then compact[k] else EMPTY;
      forall x ensures Partial(items, done + {old_}, x) == if x == k then Plus(merged, groups[old_]) else Partial(items, done, x) {
        PartialGrows(items, done, old_, x);
        PlusCommutes(EMPTY, Partial(items, done, x));
      }
      compact := compact[k := Plus(merged, groups[old_])];
      done := done + {old_};
    }
    CompactedAll(items, groups, compact);
  }

  lemma CompactedAll(items: map<int, Item>, groups: map<Key, Group>, compact: map<Key, Group>)
    requires Recomputed(items, groups, false)
    requires forall k :: k in compact <==> exists x | x in groups.Keys :: Coarse(x) == k
    requires forall k :: (if k in compact then compact[k] else EMPTY) == Partial(items, groups.Keys, k)
    ensures Recomputed(items, compact, true)
  {
    forall k ensures k in compact <==> Occupied(items, k, true) {
      if id :| id in items && BucketOf(items[id], true) == k {
        assert Occupied(items, KeyOf(items[id]), false) by {
          assert BucketOf(items[id], false) == KeyOf(items[id]);
        }
        assert KeyOf(items[id]) in groups.Keys;
      }
      if x :| x in groups.Keys && Coarse(x) == k {
        assert Occupied(items, x, false);
        var id :| id in items && BucketOf(items[id], false) == x;
        assert BucketOf(items[id], true) == k;
      }
    }
    forall k | k in compact ensures compact[k] == Bucket(items, k, true) {
      forall id | id in items ensures InDone(items[id], groups.Keys, k) == InBucket(items[id], k, true) {
        assert BucketOf(items[id], false) == KeyOf(items[id]);
        assert Occupied(items, KeyOf(items[id]), false);
      }
      TotalSame(items, i => InDone(i, groups.Keys, k), i => InBucket(i, k, true));
    }
  }

  // ---- the mutable facts ----

  ghost function CoarseKeys(items: map<int, Item>): set<Key> {
    set id | id in items :: BucketOf(items[id], true)
  }

  /** After compaction there is one bucket for each stored (source, model). */
  lemma ManyCoarse(items: map<int, Item>, groups: map<Key, Group>, compacted: bool)
    requires Recomputed(items, groups, compacted) && compacted
    ensures |groups| == |CoarseKeys(items)|
  {
    assert groups.Keys == CoarseKeys(items);
  }

  method CountIn(ghost before: map<int, Item>, groups: map<Key, Group>, compacted: bool, id: int, i: Item, bucket: Key)
    returns (after: map<Key, Group>)
    requires id !in before && Recomputed(before, groups, compacted) && bucket == BucketOf(i, compacted)
    ensures Recomputed(before[id := i], after, compacted)
  {
    AddedGroup(before, groups, compacted, id, i);
    var g := Adjusted(if bucket in groups then groups[bucket] else EMPTY, i.fact.tokens, 1);
    AddFact(before, groups, compacted, id, i, bucket, g);
    after := groups[bucket := g];
  }

  /** Every stored fact is placed by its own time stamp. */
  ghost predicate PlacedRight(steps: PlaceStep.Steps, items: map<int, Item>) {
    forall id | id in items :: items[id].placed == PlaceStep.Placed(steps, items[id].fact.at)
  }

  class Facts {
    const steps: PlaceStep.Steps
    var items: map<int, Item>
    var groups: map<Key, Group>
    var compacted: bool
    var capacity: bool

    /** Until capacity is declared the kept buckets equal the recomputed ones; after that none are kept. */
    ghost predicate Valid()
      reads this
    {
      PlacedRight(steps, items) && if capacity then groups == map[] else Recomputed(items, groups, compacted)
    }

    constructor (steps: PlaceStep.Steps)
      ensures Valid() && items == map[] && !compacted && !capacity && this.steps == steps
    {
      this.steps, items, groups, compacted, capacity := steps, map[], map[], false, false;
    }

    /** Subtract the stored fact `id` of `items` from its bucket. */
    method Subtract(id: int)
      requires Valid() && id in items
      modifies this
      ensures items == old(items) && compacted == old(compacted) && capacity == old(capacity)
      ensures if capacity then groups == map[] else Recomputed(items - {id}, groups, compacted)
    {
      if capacity {
        return;
      }
      RemovedGroup(items, groups, compacted, id);
      var bucket := BucketOf(items[id], compacted);
      var g := Adjusted(groups[bucket], items[id].fact.tokens, -1);
      ghost var was := groups;
      if g.responses == 0 {
        groups := groups - {bucket};
      } else {
        groups := groups[bucket := g];
      }
      RemoveFact(items, was, compacted, id, bucket, g, groups);
    }

    /** Add fact `id` of `items`, not yet counted, compacting or declaring capacity when a new bucket has no room. */
    method Add(id: int)
      requires id in items && PlacedRight(steps, items)
      requires if capacity then groups == map[] else Recomputed(items - {id}, groups, compacted)
      modifies this
      ensures items == old(items) && Valid()
      ensures old(compacted) ==> compacted
      ensures old(capacity) ==> capacity
      ensures compacted && !old(compacted) ==> |old(groups)| >= MAX_BUCKETS
      ensures capacity && !old(capacity) ==> |CoarseKeys(items - {id})| >= MAX_SOURCES * MAX_MODELS_PER_SOURCE
    {
      if capacity {
        return;
      }
      ghost var before := items - {id};
      assert before[id := items[id]] == items;
      var bucket := BucketOf(items[id], compacted);
      if bucket !in groups && |groups| >= MAX_BUCKETS && !compacted {
        groups := Compact(before, groups);
        compacted := true;
        bucket := Coarse(KeyOf(items[id]));
      }
      if bucket !in groups && |groups| >= MAX_SOURCES * MAX_MODELS_PER_SOURCE {
        ManyCoarse(before, groups, compacted);
        capacity := true;
        groups := map[];
        return;
      }
      groups := CountIn(before, groups, compacted, id, items[id], bucket);
    }

    /** Store a fact, placed by its time stamp. */
    method Set(id: int, source: Source, fact: Fact)
      requires Valid()
      modifies this
      ensures Valid() && items == old(items)[id := Item(source, fact, PlaceStep.Placed(steps, fact.at))]
      ensures (old(compacted) ==> compacted) && (old(capacity) ==> capacity)
    {
      ghost var was := items;
      if id in items {
        Subtract(id);
      }
      var placed := PlaceStep.Place(steps, fact.at);
      items := items[id := Item(source, fact, placed)];
      assert items - {id} == was - {id};
      assert id !in was ==> was - {id} == was;
      Add(id);
    }

    method Delete(id: int)
      requires Valid() && id in items
      modifies this
      ensures Valid() && items == old(items) - {id}
      ensures compacted == old(compacted) && capacity == old(capacity)
    {
      Subtract(id);
      items := items - {id};
    }

    /** Count one arrival of a response: decide which source it is charged to, and place the fact that is kept. */
    method Merge(id: int, source: Source, fact: Fact)
      requires Valid()
      modifies this
      ensures Valid() && items.Keys == old(items).Keys + {id}
      ensures forall x | x in old(items) && x != id :: items[x] == old(items)[x]
      ensures Charge(items[id].source, items[id].fact) ==
              Merged(if id in old(items) then Some(Charge(old(items)[id].source, old(items)[id].fact)) else None,
                      source, fact)
    {
      if id !in items {
        Set(id, source, fact);
        return;
      }
      var prior := items[id];
      if prior.source.direct && !source.direct {
        return;
      }
      if !prior.source.direct && source.direct {
        Set(id, source, fact);
        return;
      }
      var owner := if prior.source.own && !source.own then source else prior.source;
      Set(id, owner, Prefer(prior.fact, fact));
    }
  }

  ghost function SumGroups(groups: map<Key, Group>, keys: seq<Key>): Group
    requires forall k | k in keys :: k in groups
  {
    if keys == [] then EMPTY else Plus(groups[keys[0]], SumGroups(groups, keys[1..]))
  }

  function InKeys(i: Item, keys: set<Key>, compacted: bool): Group {
    if BucketOf(i, compacted) in keys then Unit(i.fact.tokens) else EMPTY
  }

  lemma InKeysSplits(i: Item, k: Key, rest: set<Key>, compacted: bool)
    requires k !in rest
    ensures InKeys(i, {k} + rest, compacted) == Plus(InBucket(i, k, compacted), InKeys(i, rest, compacted))
  {
    ChooseSplits(Unit(i.fact.tokens), BucketOf(i, compacted) == k, BucketOf(i, compacted) in rest);
  }

  lemma {:induction false} SumIsTotal(items: map<int, Item>, groups: map<Key, Group>, compacted: bool, keys: seq<Key>)
    requires Recomputed(items, groups, compacted) && forall k | k in keys :: k in groups
    requires forall i, j | 0 <= i < j < |keys| :: keys[i] != keys[j]
    ensures SumGroups(groups, keys) == Total(items, i => InKeys(i, Elems(keys), compacted))
  {
    if keys == [] {
      TotalEmpty(items, i => InKeys(i, Elems(keys), compacted));
    } else {
      var k, rest := keys[0], Elems(keys[1..]);
      assert keys == [k] + keys[1..];
      assert Elems(keys) == {k} + rest;
      SumIsTotal(items, groups, compacted, keys[1..]);
      forall id | id in items
        ensures InKeys(items[id], Elems(keys), compacted) == Plus(InBucket(items[id], k, compacted), InKeys(items[id], rest, compacted)) {
        InKeysSplits(items[id], k, rest, compacted);
      }
      TotalSplits(items, i => InKeys(i, Elems(keys), compacted), i => InBucket(i, k, compacted),
              i => InKeys(i, rest, compacted));
    }
  }

  /** Listed in any order, the kept buckets add up to all stored facts, one response each. */
  lemma BucketsCoverFacts(items: map<int, Item>, groups: map<Key, Group>, compacted: bool, keys: seq<Key>)
    requires Recomputed(items, groups, compacted) && Elems(keys) == groups.Keys
    requires forall i, j | 0 <= i < j < |keys| :: keys[i] != keys[j]
    ensures forall k | k in keys :: k in groups
    ensures SumGroups(groups, keys) == Total(items, (i: Item) => Unit(i.fact.tokens))
    ensures SumGroups(groups, keys).responses == |items|
  {
    assert forall k | k in keys :: k in groups.Keys;
    SumIsTotal(items, groups, compacted, keys);
    forall id | id in items ensures InKeys(items[id], Elems(keys), compacted) == Unit(items[id].fact.tokens) {
      assert Occupied(items, BucketOf(items[id], compacted), compacted);
      assert BucketOf(items[id], compacted) in groups.Keys;
    }
    TotalSame(items, i => InKeys(i, Elems(keys), compacted), (i: Item) => Unit(i.fact.tokens));
    TotalResponses(items, (i: Item) => Unit(i.fact.tokens));
  }

  // ---- charging an arrival ----

  datatype Charge = Charge(source: Source, fact: Fact)

  function Prefer(existing: Fact, arrived: Fact): Fact {
    if arrived.claude && Reported(existing.tokens.output) > Reported(arrived.tokens.output) then existing else arrived
  }

  /** The charge of a response after one more arrival. */
  function Merged(prior: Option<Charge>, source: Source, fact: Fact): Charge {
    if prior.None? then Charge(source, fact)
    else
      var p := prior.value;
      if p.source.direct && !source.direct then p
      else if !p.source.direct && source.direct then Charge(source, fact)
      else Charge(if p.source.own && !source.own then source else p.source, Prefer(p.fact, fact))
  }

  /** The charge after arrivals in the given order. */
  function ChargeOf(arrivals: seq<Charge>): Charge
    requires arrivals != []
  {
    var last := arrivals[|arrivals| - 1];
    Merged(if |arrivals| == 1 then None else Some(ChargeOf(arrivals[..|arrivals| - 1])), last.source, last.fact)
  }

  predicate AnyDirect(arrivals: seq<Charge>) {
    exists a | a in arrivals :: a.source.direct
  }

  /** Arrivals of the winning evidence class. */
  predicate InPool(arrivals: seq<Charge>, a: Charge) {
    a in arrivals && a.source.direct == AnyDirect(arrivals)
  }

  predicate AnyChild(arrivals: seq<Charge>) {
    exists a | a in arrivals :: InPool(arrivals, a) && !a.source.own
  }

  /** Sources that may be charged: children of the winning class, or its own sources when it has no child. */
  ghost function Candidates(arrivals: seq<Charge>): set<Source> {
    set a | a in arrivals && InPool(arrivals, a) && a.source.own != AnyChild(arrivals) :: a.source
  }

  lemma PoolStep(arrivals: seq<Charge>)
    requires |arrivals| > 1
    ensures var init, last := arrivals[..|arrivals| - 1], arrivals[|arrivals| - 1];
            && (forall a :: a in arrivals <==> a in init || a == last)
            && AnyDirect(arrivals) == (AnyDirect(init) || last.source.direct)
            && (AnyDirect(init) == AnyDirect(arrivals) ==>
                  AnyChild(arrivals) == (AnyChild(init) || (InPool(arrivals, last) && !last.source.own)))
            && (AnyDirect(init) != AnyDirect(arrivals) ==> forall a :: InPool(arrivals, a) <==> a == last)
  {
    var init, last := arrivals[..|arrivals| - 1], arrivals[|arrivals| - 1];
    assert arrivals == init + [last];
  }

  /** The winning source is direct if any is, and a child if any of that class is, in every arrival order. */
  lemma {:induction false} ChargedClass(arrivals: seq<Charge>)
    requires arrivals != []
    ensures ChargeOf(arrivals).source.direct == AnyDirect(arrivals)
    ensures ChargeOf(arrivals).source.own == !AnyChild(arrivals)
    ensures ChargeOf(arrivals).source in Candidates(arrivals)
  {
    if |arrivals| == 1 {
      assert arrivals == [arrivals[0]];
      assert InPool(arrivals, arrivals[0]);
    } else {
      var init, last := arrivals[..|arrivals| - 1], arrivals[|arrivals| - 1];
      ChargedClass(init);
      PoolStep(arrivals);
      var prior := ChargeOf(init).source;
      var a :| a in init && InPool(init, a) && a.source == prior;
      if AnyDirect(init) == AnyDirect(arrivals) {
        assert InPool(arrivals, a);
      }
      assert last in arrivals;
    }
  }

  lemma SamePool(a: seq<Charge>, b: seq<Charge>)
    requires multiset(a) == multiset(b)
    ensures AnyDirect(a) == AnyDirect(b) && AnyChild(a) == AnyChild(b) && Candidates(a) == Candidates(b)
  {
    PermutedElems(a, b);
    assert forall x :: x in a <==> x in Elems(a);
    assert forall x :: x in b <==> x in Elems(b);
    assert AnyDirect(a) == AnyDirect(b);
    assert forall x :: InPool(a, x) == InPool(b, x);
  }

  /** Arriving first among the candidates decides the charge. */
  lemma {:induction false} FirstCandidateKeeps(first: Charge, rest: seq<Charge>)
    requires first.source in Candidates([first] + rest)
    ensures ChargeOf([first] + rest).source == first.source
    decreases |rest|
  {
    var all := [first] + rest;
    if rest != [] {
      var init := all[..|all| - 1];
      assert init == [first] + rest[..|rest| - 1];
      PoolStep(all);
      var x :| x in all && InPool(all, x) && x.source.own != AnyChild(all) && x.source == first.source;
      assert first in init && first in all;
      assert InPool(init, first) by {
        assert AnyDirect(init) ==> AnyDirect(all);
        assert first.source.direct ==> AnyDirect(init);
      }
      assert AnyDirect(init) == AnyDirect(all);
      if !first.source.own {
        assert AnyChild(init);
      }
      assert first.source in Candidates(init);
      FirstCandidateKeeps(first, rest[..|rest| - 1]);
      assert all[|all| - 1] in all;
    }
  }

  lemma {:induction false} MoveFirst(arrivals: seq<Charge>, a: Charge) returns (rest: seq<Charge>)
    requires a in arrivals
    ensures multiset([a] + rest) == multiset(arrivals)
  {
    var i :| 0 <= i < |arrivals| && arrivals[i] == a;
    rest := arrivals[..i] + arrivals[i + 1..];
    assert arrivals == arrivals[..i] + [a] + arrivals[i + 1..];
  }

  lemma OneMember(s: set<Source>, x: Source)
    requires x in s
    ensures |s| == 1 <==> s == {x}
  {
    assert |s - {x}| == |s| - 1;
    if |s| == 1 {
      assert s - {x} == {};
    }
  }

  /** Every arrival order charges the same source exactly when only one source is a candidate. */
  lemma ChargeOrderIndependence(arrivals: seq<Charge>)
    requires arrivals != []
    ensures (forall other | multiset(other) == multiset(arrivals) && other != [] :: ChargeOf(other).source == ChargeOf(arrivals).source)
            <==> |Candidates(arrivals)| == 1
  {
    ChargedClass(arrivals);
    var owner := ChargeOf(arrivals).source;
    OneMember(Candidates(arrivals), owner);
    if Candidates(arrivals) == {owner} {
      forall other | multiset(other) == multiset(arrivals) && other != [] ensures ChargeOf(other).source == owner {
        SamePool(other, arrivals);
        ChargedClass(other);
        assert ChargeOf(other).source in {owner};
      }
    } else {
      assert exists s | s in Candidates(arrivals) :: s != owner by {
        assert (forall s | s in Candidates(arrivals) :: s == owner) ==> Candidates(arrivals) == {owner};
      }
      var s :| s in Candidates(arrivals) && s != owner;
      var a :| a in arrivals && InPool(arrivals, a) && a.source == s;
      var rest := MoveFirst(arrivals, a);
      SamePool([a] + rest, arrivals);
      FirstCandidateKeeps(a, rest);
      assert ChargeOf([a] + rest).source != owner;
    }
  }

  /** Of a response's Claude log lines in the winning class, one with the largest output count is kept, in every order. */
  lemma {:induction false} LargestOutputKept(arrivals: seq<Charge>)
    requires arrivals != [] && forall a | a in arrivals :: a.fact.claude
    ensures exists a | a in arrivals :: InPool(arrivals, a) && a.fact == ChargeOf(arrivals).fact
    ensures forall a | InPool(arrivals, a) :: Reported(a.fact.tokens.output) <= Reported(ChargeOf(arrivals).fact.tokens.output)
  {
    var last := arrivals[|arrivals| - 1];
    if |arrivals| == 1 {
      assert arrivals == [last];
      assert InPool(arrivals, last);
    } else {
      var init := arrivals[..|arrivals| - 1];
      PoolStep(arrivals);
      LargestOutputKept(init);
      ChargedClass(init);
      var kept :| kept in init && InPool(init, kept) && kept.fact == ChargeOf(init).fact;
      if AnyDirect(init) == AnyDirect(arrivals) {
        assert InPool(arrivals, kept);
        forall a | InPool(arrivals, a) && a != last ensures InPool(init, a) {
        }
      }
      assert last in arrivals;
    }
  }
}
