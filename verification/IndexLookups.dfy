/** Four maps filled in one pass over the Git index, each proved to answer like a linear scan. */
module IndexLookups {
  import opened Common

  /** An inventory entry; `gitlink` is mode 160000. */
  datatype Entry = Entry(path: string, gitlink: bool, stage: int)

  /** Spelling normalization and case folding of paths: any pure functions. */
  datatype Folding = Folding(spell: string -> string, fold: string -> string)

  datatype Row = Row(item: Entry, order: nat, spelling: string)
  datatype Group = Group(first: Row, alternate: Option<Row>)
  datatype Lookups = Lookups(exact: map<string, seq<Entry>>, folded: map<string, Group>,
                             descendants: map<string, Row>, gitlinks: map<string, Row>)

  /** `p` is `path` or one of its ancestor directories. */
  predicate AtOrAbove(p: string, path: string) {
    p <= path && (|p| == |path| || path[|p|] == '/')
  }

  function Ancestors(path: string): (r: set<string>)
    ensures forall p :: p in r <==> AtOrAbove(p, path)
  {
    var r := set i | 0 <= i <= |path| && (i == |path| || path[i] == '/') :: path[..i];
    assert forall p | AtOrAbove(p, path) :: p == path[..|p|];
    r
  }

  // ---- linear scans ----

  function Scan(index: seq<Entry>, p: Entry -> bool): seq<Entry> {
    if index == [] then []
    else Scan(index[..|index| - 1], p) + (if p(index[|index| - 1]) then [index[|index| - 1]] else [])
  }

  ghost predicate IsFirst(index: seq<Entry>, p: Entry -> bool, r: Row) {
    && r.order < |index| && index[r.order] == r.item && p(r.item)
    && forall j | 0 <= j < r.order :: !p(index[j])
  }

  /** The scan's answer: the first item that satisfies `p`, or None when no item does. */
  ghost predicate ScanAnswer(index: seq<Entry>, p: Entry -> bool, r: Option<Row>) {
    match r
    case Some(row) => IsFirst(index, p, row)
    case None => forall e | e in index :: !p(e)
  }

  lemma ScanExtends(index: seq<Entry>, e: Entry, p: Entry -> bool, r: Option<Row>)
    requires ScanAnswer(index, p, r)
    ensures !(r.None? && p(e)) ==> ScanAnswer(index + [e], p, r)
    ensures r.None? && p(e) ==> forall s :: ScanAnswer(index + [e], p, Some(Row(e, |index|, s)))
  {
    assert forall j | 0 <= j < |index| :: (index + [e])[j] == index[j] && index[j] in index;
  }

  // ---- the four maps ----

  function Lookup<V>(m: map<string, V>, k: string): Option<V> {
    if k in m then Some(m[k]) else None
  }

  function FirstOf(g: Option<Group>): Option<Row> {
    if g.Some? then Some(g.value.first) else None
  }

  function Listed(exact: map<string, seq<Entry>>, k: string): seq<Entry> {
    if k in exact then exact[k] else []
  }

  ghost predicate ExactRight(f: Folding, index: seq<Entry>, l: Lookups) {
    forall k :: Listed(l.exact, k) == Scan(index, (e: Entry) => f.spell(e.path) == k)
  }

  ghost predicate FoldedRight(f: Folding, index: seq<Entry>, l: Lookups) {
    && (forall k :: ScanAnswer(index, (e: Entry) => f.fold(e.path) == k, FirstOf(Lookup(l.folded, k))))
    && (forall k | k in l.folded ::
          && l.folded[k].first.spelling == f.spell(l.folded[k].first.item.path)
          && ScanAnswer(index, (e: Entry) => f.fold(e.path) == k && f.spell(e.path) != l.folded[k].first.spelling,
                  l.folded[k].alternate))
  }

  ghost predicate DescendantsRight(f: Folding, index: seq<Entry>, l: Lookups) {
    forall k :: ScanAnswer(index, (e: Entry) => AtOrAbove(k, f.fold(e.path)), Lookup(l.descendants, k))
  }

  ghost predicate GitlinksRight(f: Folding, index: seq<Entry>, l: Lookups) {
    forall k :: ScanAnswer(index, (e: Entry) => e.gitlink && f.fold(e.path) == k, Lookup(l.gitlinks, k))
  }

  ghost predicate Right(f: Folding, index: seq<Entry>, l: Lookups) {
    ExactRight(f, index, l) && FoldedRight(f, index, l) && DescendantsRight(f, index, l) && GitlinksRight(f, index, l)
  }

  function AddFolded(folded: map<string, Group>, lower: string, row: Row): map<string, Group> {
    if lower !in folded then folded[lower := Group(row, None)]
    else if folded[lower].first.spelling != row.spelling && folded[lower].alternate.None?
    then folded[lower := folded[lower].(alternate := Some(row))]
    else folded
  }

  function AddItem(f: Folding, l: Lookups, item: Entry, order: nat): Lookups {
    var key, lower := f.spell(item.path), f.fold(item.path);
    var row := Row(item, order, key);
    Lookups(l.exact[key := Listed(l.exact, key) + [item]],
            AddFolded(l.folded, lower, row),
            l.descendants + (map p | p in Ancestors(lower) && p !in l.descendants :: row),
            if item.gitlink && lower !in l.gitlinks then l.gitlinks[lower := row] else l.gitlinks)
  }

  lemma ScanOneMore(index: seq<Entry>, item: Entry, p: Entry -> bool)
    ensures Scan(index + [item], p) == Scan(index, p) + if p(item) then [item] else []
  {
    var more := index + [item];
    assert more[..|more| - 1] == index;
  }

  lemma ListedOneMore(exact: map<string, seq<Entry>>, key: string, item: Entry, k: string)
    ensures Listed(exact[key := Listed(exact, key) + [item]], k) == Listed(exact, k) + if key == k then [item] else []
  {
    assert Listed(exact, k) + [] == Listed(exact, k);
  }

  lemma ExactStep(f: Folding, index: seq<Entry>, l: Lookups, item: Entry)
    requires ExactRight(f, index, l)
    ensures ExactRight(f, index + [item], AddItem(f, l, item, |index|))
  {
    var key := f.spell(item.path);
    var exact := l.exact[key := Listed(l.exact, key) + [item]];
    assert AddItem(f, l, item, |index|).exact == exact;
    forall k ensures Listed(exact, k) == Scan(index + [item], (e: Entry) => f.spell(e.path) == k) {
      ScanOneMore(index, item, (e: Entry) => f.spell(e.path) == k);
      ListedOneMore(l.exact, key, item, k);
    }
  }

  lemma FirstStep(f: Folding, index: seq<Entry>, l: Lookups, item: Entry, k: string)
    requires FoldedRight(f, index, l)
    ensures ScanAnswer(index + [item], (e: Entry) => f.fold(e.path) == k,
            FirstOf(Lookup(AddItem(f, l, item, |index|).folded, k)))
  {
    ScanExtends(index, item, (e: Entry) => f.fold(e.path) == k, FirstOf(Lookup(l.folded, k)));
  }

  lemma AlternateStep(f: Folding, index: seq<Entry>, l: Lookups, item: Entry, k: string)
    requires FoldedRight(f, index, l) && k in AddItem(f, l, item, |index|).folded
    ensures var g := AddItem(f, l, item, |index|).folded[k];
            && g.first.spelling == f.spell(g.first.item.path)
            && ScanAnswer(index + [item], (e: Entry) => f.fold(e.path) == k && f.spell(e.path) != g.first.spelling,
                    g.alternate)
  {
    var g := AddItem(f, l, item, |index|).folded[k];
    if k in l.folded {
      assert g.first == l.folded[k].first;
      ScanExtends(index, item, (e: Entry) => f.fold(e.path) == k && f.spell(e.path) != l.folded[k].first.spelling,
              l.folded[k].alternate);
    } else {
      assert k == f.fold(item.path);
      assert ScanAnswer(index, (e: Entry) => f.fold(e.path) == k, FirstOf(Lookup(l.folded, k)));
      assert forall e | e in index :: f.fold(e.path) != k;
    }
  }

  lemma FoldedStep(f: Folding, index: seq<Entry>, l: Lookups, item: Entry)
    requires FoldedRight(f, index, l)
    ensures FoldedRight(f, index + [item], AddItem(f, l, item, |index|))
  {
    var next := AddItem(f, l, item, |index|);
    forall k ensures ScanAnswer(index + [item], (e: Entry) => f.fold(e.path) == k, FirstOf(Lookup(next.folded, k))) {
      FirstStep(f, index, l, item, k);
    }
    forall k | k in next.folded
      ensures next.folded[k].first.spelling == f.spell(next.folded[k].first.item.path)
      ensures ScanAnswer(index + [item], (e: Entry) => f.fold(e.path) == k
              && f.spell(e.path) != next.folded[k].first.spelling, next.folded[k].alternate)
    {
      AlternateStep(f, index, l, item, k);
    }
  }

  lemma DescendantsStep(f: Folding, index: seq<Entry>, l: Lookups, item: Entry)
    requires DescendantsRight(f, index, l)
    ensures DescendantsRight(f, index + [item], AddItem(f, l, item, |index|))
  {
    var next := AddItem(f, l, item, |index|);
    forall k ensures ScanAnswer(index + [item], (e: Entry) => AtOrAbove(k, f.fold(e.path)), Lookup(next.descendants, k)) {
      ScanExtends(index, item, (e: Entry) => AtOrAbove(k, f.fold(e.path)), Lookup(l.descendants, k));
    }
  }

  lemma GitlinksStep(f: Folding, index: seq<Entry>, l: Lookups, item: Entry)
    requires GitlinksRight(f, index, l)
    ensures GitlinksRight(f, index + [item], AddItem(f, l, item, |index|))
  {
    var next := AddItem(f, l, item, |index|);
    forall k ensures ScanAnswer(index + [item], (e: Entry) => e.gitlink && f.fold(e.path) == k, Lookup(next.gitlinks, k)) {
      ScanExtends(index, item, (e: Entry) => e.gitlink && f.fold(e.path) == k, Lookup(l.gitlinks, k));
    }
  }

  lemma ItemStep(f: Folding, index: seq<Entry>, l: Lookups, item: Entry)
    requires Right(f, index, l)
    ensures Right(f, index + [item], AddItem(f, l, item, |index|))
  {
    ExactStep(f, index, l, item);
    FoldedStep(f, index, l, item);
    DescendantsStep(f, index, l, item);
    GitlinksStep(f, index, l, item);
  }

  lemma EmptyIsRight(f: Folding)
    ensures Right(f, [], Lookups(map[], map[], map[], map[]))
  {
  }

  method AddOne(f: Folding, ghost done: seq<Entry>, l: Lookups, item: Entry, order: nat) returns (next: Lookups)
    requires Right(f, done, l) && order == |done|
    ensures Right(f, done + [item], next)
  {
    ItemStep(f, done, l, item);
    next := AddItem(f, l, item, order);
  }

  /** Index once, retaining the first inventory entry for each candidate. */
  method Build(f: Folding, index: seq<Entry>) returns (l: Lookups)
    ensures Right(f, index, l)
  {
    l := Lookups(map[], map[], map[], map[]);
    EmptyIsRight(f);
    ghost var done: seq<Entry> := [];
    for order := 0 to |index|
      invariant |done| == order && forall j | 0 <= j < order :: done[j] == index[j]
      invariant Right(f, done, l)
    {
      l := AddOne(f, done, l, index[order], order);
      done := done + [index[order]];
    }
    assert done == index;
  }

  // ---- queries ----

  function Entries(f: Folding, l: Lookups, path: string): seq<Entry> {
    Listed(l.exact, f.spell(path))
  }

  function Variant(f: Folding, l: Lookups, path: string): Option<Row> {
    if f.fold(path) !in l.folded then None
    else
      var g := l.folded[f.fold(path)];
      if g.first.spelling != f.spell(path) then Some(g.first) else g.alternate
  }

  function Earlier(a: Option<Row>, b: Option<Row>): Option<Row> {
    if a.None? then b else if b.Some? && b.value.order < a.value.order then b else a
  }

  /** The earliest row that `m` keeps for one of the keys. */
  method EarliestOf(keys: set<string>, m: map<string, Row>) returns (best: Option<Row>)
    ensures best.None? <==> forall k | k in keys :: k !in m
    ensures best.Some? ==> exists k | k in keys :: k in m && m[k] == best.value
    ensures best.Some? ==> forall k | k in keys && k in m :: best.value.order <= m[k].order
  {
    best := None;
    var todo := keys;
    while todo != {}
      invariant todo <= keys
      invariant best.None? <==> forall k | k in keys && k !in todo :: k !in m
      invariant best.Some? ==> exists k | k in keys :: k in m && m[k] == best.value
      invariant best.Some? ==> forall k | k in keys && k !in todo && k in m :: best.value.order <= m[k].order
      decreases todo
    {
      ghost var w := Member(todo);
      var k :| k in todo;
      todo := todo - {k};
      best := Earlier(best, Lookup(m, k));
    }
  }

  /** Same-spelling items, in inventory order. */
  lemma EntriesAreScan(f: Folding, index: seq<Entry>, l: Lookups, path: string)
    requires Right(f, index, l)
    ensures Entries(f, l, path) == Scan(index, (e: Entry) => f.spell(e.path) == f.spell(path))
  {
    assert ExactRight(f, index, l);
  }

  /** The first fold-equal item of another spelling. */
  lemma VariantIsScan(f: Folding, index: seq<Entry>, l: Lookups, path: string)
    requires Right(f, index, l)
    ensures ScanAnswer(index, (e: Entry) => f.fold(e.path) == f.fold(path) && f.spell(e.path) != f.spell(path),
            Variant(f, l, path))
  {
    var k := f.fold(path);
    assert ScanAnswer(index, (e: Entry) => f.fold(e.path) == k, FirstOf(Lookup(l.folded, k)));
    if k in l.folded && l.folded[k].first.spelling != f.spell(path) {
      assert IsFirst(index, (e: Entry) => f.fold(e.path) == k, l.folded[k].first);
    }
  }

  /** The first gitlink at or above the path. */
  method Gitlink(f: Folding, index: seq<Entry>, l: Lookups, path: string) returns (r: Option<Row>)
    requires Right(f, index, l)
    ensures ScanAnswer(index, (e: Entry) => e.gitlink && AtOrAbove(f.fold(e.path), f.fold(path)), r)
  {
    var key := f.fold(path);
    r := EarliestOf(Ancestors(key), l.gitlinks);
    ghost var p := (e: Entry) => e.gitlink && AtOrAbove(f.fold(e.path), key);
    forall j | 0 <= j < |index| && p(index[j]) ensures r.Some? && r.value.order <= j {
      var k := f.fold(index[j].path);
      assert index[j] in index;
      assert ScanAnswer(index, (e: Entry) => e.gitlink && f.fold(e.path) == k, Lookup(l.gitlinks, k));
    }
    if r.Some? {
      var k :| k in Ancestors(key) && k in l.gitlinks && l.gitlinks[k] == r.value;
      assert ScanAnswer(index, (e: Entry) => e.gitlink && f.fold(e.path) == k, Lookup(l.gitlinks, k));
    }
  }

  /** The first item equal to the path, above it, or beneath it. */
  method Conflict(f: Folding, index: seq<Entry>, l: Lookups, path: string) returns (r: Option<Row>)
    requires Right(f, index, l)
    ensures ScanAnswer(index, (e: Entry) => AtOrAbove(f.fold(path), f.fold(e.path)) || AtOrAbove(f.fold(e.path),
            f.fold(path)), r)
  {
    var key := f.fold(path);
    var firsts := map k | k in l.folded :: l.folded[k].first;
    var above := EarliestOf(Ancestors(key), firsts);
    var beneath := Lookup(l.descendants, key);
    r := Earlier(beneath, above);
    assert ScanAnswer(index, (e: Entry) => AtOrAbove(key, f.fold(e.path)), beneath);
    ghost var p := (e: Entry) => AtOrAbove(key, f.fold(e.path)) || AtOrAbove(f.fold(e.path), key);
    forall j | 0 <= j < |index| && p(index[j]) ensures r.Some? && r.value.order <= j {
      assert index[j] in index;
      if AtOrAbove(f.fold(index[j].path), key) {
        var k := f.fold(index[j].path);
        assert ScanAnswer(index, (e: Entry) => f.fold(e.path) == k, FirstOf(Lookup(l.folded, k)));
        assert k in firsts;
      }
    }
    if above.Some? {
      var k :| k in Ancestors(key) && k in firsts && firsts[k] == above.value;
      assert ScanAnswer(index, (e: Entry) => f.fold(e.path) == k, FirstOf(Lookup(l.folded, k)));
    }
    if r.Some? {
      assert p(r.value.item);
    }
  }
}
