/** Storing a traversed bundle in batches, through any number of crashes. */
module BundlePersistence {
  import opened Wrappers
  import Paths
  import T = BundleTraversal
  import R = BundleRows

  type Item = T.Occurrence

  // ----- what framing guarantees -----

  /** Entries framed inside data of `dataSize` bytes: consecutive, in bounds, of the
      bundle's own format, each with a header before its data. */
  ghost predicate Laid(entries: seq<T.Entry>, json: bool, dataSize: nat)
    decreases entries
  {
    && (forall i, j | 0 <= i < j < |entries| :: entries[i].offset + entries[i].size <= entries[j].offset)
    && (forall e | e in entries ::
          && e.json == json && e.offset > 0 && (json || e.offset >= R.MIN_BINARY_OFFSET)
          && e.offset + e.size <= dataSize
          && 0 < e.dataOffset <= e.size
          && (if json then e.dataSize <= e.size - e.dataOffset else e.dataSize == e.size - e.dataOffset)
          && LaidPayload(e))
  }

  ghost predicate LaidPayload(e: T.Entry)
    decreases e
  {
    match e.payload
    case Bundle(json, entries) => Laid(entries, json, e.dataSize)
    case _ => true
  }

  lemma {:induction false} LaidIsFramed(entries: seq<T.Entry>, json: bool, dataSize: nat)
    requires Laid(entries, json, dataSize)
    ensures T.Framed(entries)
    decreases entries
  {
    forall i, j | 0 <= i < j < |entries|
      ensures entries[i].offset < entries[j].offset
    {
      assert entries[i] in entries;
    }
    forall e | e in entries
      ensures T.FramedPayload(e)
    {
      LaidPayloadIsFramed(e);
    }
  }

  lemma {:induction false} LaidPayloadIsFramed(e: T.Entry)
    requires LaidPayload(e)
    ensures T.FramedPayload(e)
    decreases e
  {
    if e.payload.Bundle? {
      LaidIsFramed(e.payload.entries, e.payload.format, e.dataSize);
    }
  }

  /** Occurrences below the same parent do not overlap, earlier ones first. */
  ghost predicate Apart(items: seq<Item>) {
    forall i, j | 0 <= i < j < |items| && R.Siblings(items[i].path, items[j].path) ::
      items[i].entry.offset + items[i].entry.size <= items[j].entry.offset
  }

  /** What the entries of all occurrences satisfy on their own. */
  ghost predicate Sized(o: Item) {
    && o.entry.offset > 0 && (o.entry.json || o.entry.offset >= R.MIN_BINARY_OFFSET)
    && 0 < o.entry.dataOffset <= o.entry.size
    && (if o.entry.json then o.entry.dataSize <= o.entry.size - o.entry.dataOffset
        else o.entry.dataSize == o.entry.size - o.entry.dataOffset)
    && LaidPayload(o.entry)
  }

  lemma LaidTail(entries: seq<T.Entry>, json: bool, dataSize: nat)
    requires Laid(entries, json, dataSize) && entries != []
    ensures Laid(entries[1..], json, dataSize) && LaidPayload(entries[0])
    ensures forall e | e in entries[1..] :: entries[0].offset + entries[0].size <= e.offset
  {
    assert entries[0] in entries;
    forall i, j | 0 <= i < j < |entries[1..]|
      ensures entries[1..][i].offset + entries[1..][i].size <= entries[1..][j].offset
    {
      assert entries[1..][i] == entries[i + 1] && entries[1..][j] == entries[j + 1];
    }
  }

  lemma KeepShape(filter: T.Filter, entries: seq<T.Entry>, parent: T.Id, base: T.Path)
    requires entries != [] && T.Judge(filter, entries[0]) == T.Keep && T.Opens(entries[0], |base| + 1)
    ensures var e := entries[0];
            T.Walk(filter, entries, parent, base).items
              <= [T.Occurrence(e, base + [e.offset], parent)] + T.Inside(filter, e, base + [e.offset]).items
                 + T.Walk(filter, entries[1..], parent, base).items
  {
  }

  lemma WalkBelow(filter: T.Filter, entries: seq<T.Entry>, parent: T.Id, base: T.Path, json: bool, dataSize: nat, low: nat)
    requires Laid(entries, json, dataSize) && |base| < Paths.MAX_DEPTH
    requires forall e | e in entries :: e.offset >= low
    ensures forall o | o in T.Walk(filter, entries, parent, base).items :: T.Below(o, base, low)
  {
    LaidIsFramed(entries, json, dataSize);
    T.WalkInOrder(filter, entries, parent, base, low);
  }

  lemma {:induction false} WalkApart(filter: T.Filter, entries: seq<T.Entry>, parent: T.Id, base: T.Path, json: bool, dataSize: nat)
    requires Laid(entries, json, dataSize) && |base| < Paths.MAX_DEPTH
    ensures Apart(T.Walk(filter, entries, parent, base).items)
    ensures forall o | o in T.Walk(filter, entries, parent, base).items :: Sized(o)
    decreases entries
  {
    if entries != [] {
      var e := entries[0];
      LaidTail(entries, json, dataSize);
      WalkApart(filter, entries[1..], parent, base, json, dataSize);
      if T.Judge(filter, e) == T.Keep && T.Opens(e, |base| + 1) {
        var path := base + [e.offset];
        var here := T.Occurrence(e, path, parent);
        var inner, rest := T.Inside(filter, e, path).items, T.Walk(filter, entries[1..], parent, base).items;
        InsideApart(filter, e, path);
        assert e in entries && Sized(here);
        KeepApart(filter, entries, parent, base, json, dataSize);
        KeepShape(filter, entries, parent, base);
        var walk := T.Walk(filter, entries, parent, base).items;
        forall o | o in walk
          ensures Sized(o)
        {
          assert o in [here] + inner + rest;
        }
      }
    }
  }

  lemma KeepApart(filter: T.Filter, entries: seq<T.Entry>, parent: T.Id, base: T.Path, json: bool, dataSize: nat)
    requires Laid(entries, json, dataSize) && |base| < Paths.MAX_DEPTH && entries != []
    requires T.Judge(filter, entries[0]) == T.Keep && T.Opens(entries[0], |base| + 1)
    requires Apart(T.Walk(filter, entries[1..], parent, base).items)
    requires Apart(T.Inside(filter, entries[0], base + [entries[0].offset]).items)
    ensures Apart(T.Walk(filter, entries, parent, base).items)
  {
    var e := entries[0];
    assert e in entries;
    LaidTail(entries, json, dataSize);
    var path := base + [e.offset];
    var here := T.Occurrence(e, path, parent);
    var inner, rest := T.Inside(filter, e, path).items, T.Walk(filter, entries[1..], parent, base).items;
    T.InsideParents(filter, e, path);
    WalkBelow(filter, entries[1..], parent, base, json, dataSize, e.offset + e.size);
    ApartConcat(here, inner, rest, base);
    KeepShape(filter, entries, parent, base);
    ApartPrefix([here] + inner + rest, T.Walk(filter, entries, parent, base).items);
  }

  lemma ApartPrefix(all: seq<Item>, some: seq<Item>)
    requires Apart(all) && some <= all
    ensures Apart(some)
  {
  }

  lemma {:induction false} InsideApart(filter: T.Filter, e: T.Entry, path: T.Path)
    requires LaidPayload(e) && T.Opens(e, |path|)
    ensures Apart(T.Inside(filter, e, path).items)
    ensures forall o | o in T.Inside(filter, e, path).items :: Sized(o)
    decreases e
  {
    if e.payload.Bundle? && e.payload.entries != [] {
      WalkApart(filter, e.payload.entries, e.itemId, path, e.payload.format, e.dataSize);
    }
  }

  lemma ApartConcat(here: Item, inner: seq<Item>, rest: seq<Item>, base: T.Path)
    requires here.path == base + [here.entry.offset]
    requires Apart(inner) && Apart(rest)
    requires forall o | o in inner :: |o.path| > |here.path| && o.path[..|here.path|] == here.path
    requires forall o | o in rest :: T.Below(o, base, here.entry.offset + here.entry.size)
    requires here.entry.size > 0
    ensures Apart([here] + inner + rest)
  {
    var all := [here] + inner + rest;
    forall o, r | o in inner && r in rest
      ensures !R.Siblings(o.path, r.path)
    {
      assert o.path[|base|] == o.path[..|here.path|][|base|];
      NotSiblings(o.path, r.path, |base|);
    }
    forall o | o in inner
      ensures !R.Siblings(here.path, o.path)
    {
    }
    forall i, j | 0 <= i < j < |all|
      ensures R.Siblings(all[i].path, all[j].path) ==> all[i].entry.offset + all[i].entry.size <= all[j].entry.offset
    {
      if j <= |inner| {
        assert all[j] == inner[j - 1] && all[j] in inner;
        assert i > 0 ==> all[i] == inner[i - 1];
      } else {
        assert all[j] == rest[j - 1 - |inner|] && all[j] in rest;
        if i > |inner| {
          assert all[i] == rest[i - 1 - |inner|];
        } else if i > 0 {
          assert all[i] == inner[i - 1] && all[i] in inner;
        } else {
          HereBefore(here, all[j], base);
        }
      }
    }
  }

  lemma NotSiblings(a: T.Path, b: T.Path, k: nat)
    requires k + 1 < |a| && k < |b| && a[k] != b[k]
    ensures !R.Siblings(a, b)
  {
    if |a| == |b| {
      assert R.Front(a)[k] == a[k] && R.Front(b)[k] == b[k];
    }
  }

  lemma HereBefore(here: Item, r: Item, base: T.Path)
    requires here.path == base + [here.entry.offset]
    requires T.Below(r, base, here.entry.offset + here.entry.size)
    ensures R.Siblings(here.path, r.path) ==> here.entry.offset + here.entry.size <= r.entry.offset
  {
  }

  // ----- rows of a traversal -----

  function RowOf(o: Item): R.Row {
    R.Row(o.entry.itemId, o.parent, o.entry.offset, o.entry.size, o.entry.dataOffset, o.entry.json)
  }

  function MetaOf(o: Item): R.Meta {
    var bundle := o.entry.payload.Bundle?;
    R.Meta(o.entry.dataSize, bundle && !o.entry.payload.format, bundle && o.entry.payload.format, o.entry.other)
  }

  /** Occurrences `a..b` as a batch of rows, and the metadata of their items. */
  function BatchOf(items: seq<Item>, a: nat, b: nat): (batch: seq<R.Incoming>)
    requires a <= b <= |items|
    ensures |batch| == b - a
  {
    if a == b then [] else BatchOf(items, a, b - 1) + [R.Incoming(items[b - 1].path, RowOf(items[b - 1]))]
  }

  function MetasOf(items: seq<Item>, a: nat, b: nat): map<R.Id, R.Meta>
    requires a <= b <= |items|
  {
    if a == b then map[] else MetasOf(items, a, b - 1)[items[b - 1].entry.itemId := MetaOf(items[b - 1])]
  }

  /** The root bundle as the index knows it. */
  datatype Root = Root(id: R.Id, json: bool, dataSize: nat)

  ghost predicate ItemOk(o: Item, root: Root) {
    && Sized(o) && T.Below(o, [], 0) && o.entry.itemId != root.id
    && (|o.path| == 1 ==> o.entry.json == root.json && o.entry.offset + o.entry.size <= root.dataSize)
  }

  ghost predicate AllOk(items: seq<Item>, root: Root) {
    forall k | 0 <= k < |items| :: ItemOk(items[k], root)
  }

  /** One item has one metadata record, wherever it occurs. */
  ghost predicate SameIds(items: seq<Item>) {
    forall i, j | 0 <= i < |items| && 0 <= j < |items| && items[i].entry.itemId == items[j].entry.itemId ::
      MetaOf(items[i]) == MetaOf(items[j])
  }

  /** The occurrences of one traversal, in order. */
  ghost predicate Plan(items: seq<Item>, root: Root) {
    T.PathOrder(items) && T.ParentsFirst(items, root.id, []) && Apart(items) && AllOk(items, root) && SameIds(items)
  }

  ghost predicate RowsWithin(rows: map<R.Path, R.Row>, items: seq<Item>) {
    forall p | p in rows :: exists k :: 0 <= k < |items| && items[k].path == p && RowOf(items[k]) == rows[p]
  }

  ghost predicate ObjectsWithin(objects: map<R.Id, R.Object>, items: seq<Item>) {
    forall k | 0 <= k < |items| && items[k].entry.itemId in objects :: ObjectFits(objects[items[k].entry.itemId], items[k])
  }

  ghost predicate ObjectFits(stored: R.Object, o: Item) {
    stored.kind == 1 && (stored.meta.Some? ==> stored.meta.value == MetaOf(o))
  }

  ghost predicate RootKnown(s: R.Store, root: Root) {
    && s.root == root.id && R.RootOk(s)
    && s.objects[s.root].meta.value.json == root.json && s.objects[s.root].meta.value.dataSize == root.dataSize
  }

  /** The first `n` occurrences are stored. */
  ghost predicate Holds(s: R.Store, items: seq<Item>, n: nat) {
    n <= |items| && forall k | 0 <= k < n :: items[k].path in s.rows
  }

  /** The stored rows are rows of the traversal, and the objects do not contradict it. */
  ghost predicate Ready(s: R.Store, items: seq<Item>, root: Root) {
    && R.Inv(s) && RootKnown(s, root)
    && RowsWithin(s.rows, items) && ObjectsWithin(s.objects, items)
    && (s.complete ==> Holds(s, items, |items|))
  }

  lemma PathsDistinct(items: seq<Item>, i: nat, j: nat)
    requires T.PathOrder(items) && i < |items| && j < |items| && items[i].path == items[j].path
    ensures i == j
  {
    Paths.Irreflexive(items[i].path);
  }

  /** The metadata of a stretch is the metadata of its occurrences. */
  lemma {:induction false} MetasHold(items: seq<Item>, a: nat, b: nat, id: R.Id)
    requires a <= b <= |items|
    ensures id in MetasOf(items, a, b) <==> exists k :: a <= k < b && items[k].entry.itemId == id
    ensures id in MetasOf(items, a, b) ==>
              exists k :: a <= k < b && items[k].entry.itemId == id && MetasOf(items, a, b)[id] == MetaOf(items[k])
  {
    if a < b {
      MetasHold(items, a, b - 1, id);
      if id == items[b - 1].entry.itemId {
        assert items[b - 1].entry.itemId == id;
      }
    }
  }

  /** Where `id` occurs anywhere, the stretch has no other metadata for it. */
  lemma MetasAgree(items: seq<Item>, a: nat, b: nat, k: nat)
    requires SameIds(items) && a <= b <= |items| && k < |items|
    ensures items[k].entry.itemId in MetasOf(items, a, b) ==> MetasOf(items, a, b)[items[k].entry.itemId] == MetaOf(items[k])
    ensures a <= k < b ==> items[k].entry.itemId in MetasOf(items, a, b)
  {
    MetasHold(items, a, b, items[k].entry.itemId);
  }

  // ----- every batch of a traversal is accepted -----

  ghost function After(s: R.Store, items: seq<Item>, a: nat, b: nat): R.Store
    requires a <= b <= |items|
  {
    R.Written(s, MetasOf(items, a, b), BatchOf(items, a, b))
  }

  /** The row stored at the path of an occurrence is the row of that occurrence. */
  lemma RowIsOwn(rows: map<R.Path, R.Row>, items: seq<Item>, k: nat)
    requires T.PathOrder(items) && RowsWithin(rows, items) && k < |items| && items[k].path in rows
    ensures rows[items[k].path] == RowOf(items[k])
  {
    var j :| 0 <= j < |items| && items[j].path == items[k].path && RowOf(items[j]) == rows[items[k].path];
    PathsDistinct(items, j, k);
  }

  lemma {:induction false} BatchIs(items: seq<Item>, a: nat, b: nat, i: nat)
    requires a <= b <= |items| && i < b - a
    ensures BatchOf(items, a, b)[i] == R.Incoming(items[a + i].path, RowOf(items[a + i]))
  {
    if a + i < b - 1 {
      BatchIs(items, a, b - 1, i);
    }
  }

  lemma BatchMember(items: seq<Item>, a: nat, b: nat, c: R.Incoming) returns (k: nat)
    requires a <= b <= |items| && c in BatchOf(items, a, b)
    ensures a <= k < b && c == R.Incoming(items[k].path, RowOf(items[k]))
  {
    var i :| 0 <= i < b - a && BatchOf(items, a, b)[i] == c;
    BatchIs(items, a, b, i);
    k := a + i;
  }

  /** A row inserted from the stretch is the row of one of its occurrences. */
  lemma {:induction false} InsertedRow(items: seq<Item>, a: nat, b: nat, p: R.Path)
    requires a <= b <= |items|
    ensures p in R.Indexed(BatchOf(items, a, b)) <==> exists k :: a <= k < b && items[k].path == p
    ensures p in R.Indexed(BatchOf(items, a, b)) ==>
              exists k :: a <= k < b && items[k].path == p && RowOf(items[k]) == R.Indexed(BatchOf(items, a, b))[p]
  {
    if a < b {
      InsertedRow(items, a, b - 1, p);
      var batch := BatchOf(items, a, b);
      assert batch[..|batch| - 1] == BatchOf(items, a, b - 1);
      if p == items[b - 1].path {
        assert items[b - 1].path == p;
      }
    }
  }

  lemma AfterRowsWithin(s: R.Store, items: seq<Item>, a: nat, b: nat)
    requires RowsWithin(s.rows, items) && a <= b <= |items|
    ensures RowsWithin(After(s, items, a, b).rows, items)
  {
    var t := After(s, items, a, b);
    forall p | p in t.rows
      ensures exists k :: 0 <= k < |items| && items[k].path == p && RowOf(items[k]) == t.rows[p]
    {
      InsertedRow(items, a, b, p);
    }
  }

  /** After the write the first `b` occurrences are stored, and only occurrences are. */
  lemma AfterRows(s: R.Store, items: seq<Item>, a: nat, b: nat)
    requires T.PathOrder(items) && RowsWithin(s.rows, items) && Holds(s, items, a) && a <= b <= |items|
    ensures RowsWithin(After(s, items, a, b).rows, items)
    ensures Holds(After(s, items, a, b), items, b)
    ensures forall k | 0 <= k < b :: After(s, items, a, b).rows[items[k].path] == RowOf(items[k])
  {
    AfterRowsWithin(s, items, a, b);
    var t := After(s, items, a, b);
    forall k | 0 <= k < b
      ensures items[k].path in t.rows && t.rows[items[k].path] == RowOf(items[k])
    {
      InsertedRow(items, a, b, items[k].path);
      RowIsOwn(t.rows, items, k);
    }
  }

  /** The items of the first `b` occurrences are complete after the write. */
  lemma AfterObjects(s: R.Store, items: seq<Item>, a: nat, b: nat, k: nat)
    requires SameIds(items) && ObjectsWithin(s.objects, items) && a <= b <= |items| && k < |items|
    requires a <= k < b || R.IsComplete(s, items[k].entry.itemId, 1)
    ensures R.IsComplete(After(s, items, a, b), items[k].entry.itemId, 1)
    ensures After(s, items, a, b).objects[items[k].entry.itemId].meta.value == MetaOf(items[k])
  {
    MetasAgree(items, a, b, k);
  }

  lemma AfterObjectsWithin(s: R.Store, items: seq<Item>, a: nat, b: nat)
    requires SameIds(items) && ObjectsWithin(s.objects, items) && a <= b <= |items|
    ensures ObjectsWithin(After(s, items, a, b).objects, items)
    ensures R.ObjectsAgree(s, MetasOf(items, a, b))
  {
    var t := After(s, items, a, b);
    forall k | 0 <= k < |items| && items[k].entry.itemId in t.objects
      ensures ObjectFits(t.objects[items[k].entry.itemId], items[k])
    {
      MetasAgree(items, a, b, k);
    }
    forall id | id in MetasOf(items, a, b) && id in s.objects
      ensures s.objects[id].kind == 1
      ensures s.objects[id].meta.Some? ==> s.objects[id].meta.value == MetasOf(items, a, b)[id]
    {
      MetasHold(items, a, b, id);
      var k :| a <= k < b && items[k].entry.itemId == id && MetasOf(items, a, b)[id] == MetaOf(items[k]);
      assert ObjectFits(s.objects[items[k].entry.itemId], items[k]);
    }
  }

  lemma RootUntouched(s: R.Store, items: seq<Item>, root: Root, a: nat, b: nat)
    requires AllOk(items, root) && RootKnown(s, root) && a <= b <= |items|
    ensures root.id !in MetasOf(items, a, b)
    ensures RootKnown(After(s, items, a, b), root)
  {
    MetasHold(items, a, b, root.id);
    forall k | a <= k < b
      ensures items[k].entry.itemId != root.id
    {
      assert ItemOk(items[k], root);
    }
  }

  /** The parent of an occurrence below the top is an earlier occurrence, laid out around it. */
  lemma ParentIndex(items: seq<Item>, root: Root, k: nat) returns (j: nat)
    requires Plan(items, root) && k < |items| && |items[k].path| > 1
    ensures j < k && items[j].path == R.Front(items[k].path) && items[j].entry.itemId == items[k].parent != root.id
    ensures items[j].entry.payload.Bundle? && items[j].entry.payload.format == items[k].entry.json
    ensures items[k].entry.offset + items[k].entry.size <= items[j].entry.dataSize
  {
    assert T.ParentBefore(items, k, root.id, []);
    var o := items[k];
    j :| 0 <= j < k && items[j].path == o.path[..|o.path| - 1] && items[j].entry.itemId == o.parent
         && items[j].entry.payload.Bundle? && o.entry in items[j].entry.payload.entries;
    assert ItemOk(items[j], root);
    var around := items[j].entry;
    assert Laid(around.payload.entries, around.payload.format, around.dataSize);
  }

  lemma TopParent(items: seq<Item>, root: Root, k: nat)
    requires Plan(items, root) && k < |items| && |items[k].path| <= 1
    ensures |items[k].path| == 1 && items[k].parent == root.id
  {
    assert ItemOk(items[k], root);
    assert T.ParentBefore(items, k, root.id, []);
  }

  /** Everything stored before the stretch is complete. */
  lemma StoredComplete(s: R.Store, items: seq<Item>, k: nat)
    requires R.Inv(s) && T.PathOrder(items) && RowsWithin(s.rows, items) && k < |items| && items[k].path in s.rows
    ensures R.IsComplete(s, items[k].entry.itemId, 1)
  {
    RowIsOwn(s.rows, items, k);
    assert R.RowOk(s, items[k].path);
  }

  lemma AfterParent(s: R.Store, items: seq<Item>, root: Root, a: nat, b: nat, k: nat)
    requires Plan(items, root) && Ready(s, items, root) && Holds(s, items, a) && a <= k < b <= |items|
    ensures items[k].path != [] && R.ParentOk(After(s, items, a, b), items[k].path, RowOf(items[k]))
    ensures |items[k].path| == 1 <==> items[k].parent == root.id
  {
    RootUntouched(s, items, root, a, b);
    assert ItemOk(items[k], root);
    if |items[k].path| <= 1 {
      TopParent(items, root, k);
    } else {
      var j := ParentIndex(items, root, k);
      if j < a {
        StoredComplete(s, items, j);
      }
      AfterObjects(s, items, a, b, j);
      AfterRows(s, items, a, b);
    }
  }

  lemma NoOverlapWithin(rows: map<R.Path, R.Row>, items: seq<Item>, root: Root)
    requires RowsWithin(rows, items) && Apart(items) && AllOk(items, root)
    ensures !R.OverlapFound(rows)
  {
    hide RowsWithin, Apart, AllOk;
    forall q, p | q in rows && p in rows && R.Previous(rows, q, p)
      ensures rows[p].offset >= rows[q].offset + rows[q].size
    {
      var i := WithinAt(rows, items, q);
      var j := WithinAt(rows, items, p);
      ApartAt(items, root, i, j);
    }
  }

  lemma WithinAt(rows: map<R.Path, R.Row>, items: seq<Item>, p: R.Path) returns (k: nat)
    requires RowsWithin(rows, items) && p in rows
    ensures k < |items| && items[k].path == p && RowOf(items[k]) == rows[p]
  {
    k :| 0 <= k < |items| && items[k].path == p && RowOf(items[k]) == rows[p];
  }

  /** Of two siblings the one with the lower offset ends before the other begins. */
  lemma ApartAt(items: seq<Item>, root: Root, i: nat, j: nat)
    requires Apart(items) && AllOk(items, root) && i < |items| && j < |items|
    requires R.Siblings(items[i].path, items[j].path) && items[i].entry.offset < items[j].entry.offset
    ensures items[i].entry.offset + items[i].entry.size <= items[j].entry.offset
  {
    assert ItemOk(items[j], root);
    assert j < i ==> R.Siblings(items[j].path, items[i].path);
  }

  lemma ShapeAt(s: R.Store, items: seq<Item>, root: Root, a: nat, b: nat, k: nat)
    requires Plan(items, root) && Ready(s, items, root) && Holds(s, items, a) && a <= k < b <= |items|
    ensures items[k].entry.itemId in MetasOf(items, a, b)
    ensures R.ShapeOk(s.root, items[k].path, RowOf(items[k]))
    ensures R.SizesOk(RowOf(items[k]), MetasOf(items, a, b)[items[k].entry.itemId].dataSize)
  {
    assert ItemOk(items[k], root);
    MetasAgree(items, a, b, k);
    AfterParent(s, items, root, a, b, k);
  }

  lemma MetasOccur(items: seq<Item>, a: nat, b: nat, id: R.Id)
    requires a <= b <= |items| && id in MetasOf(items, a, b)
    ensures exists i :: 0 <= i < b - a && BatchOf(items, a, b)[i].row.id == id
  {
    MetasHold(items, a, b, id);
    var k :| a <= k < b && items[k].entry.itemId == id;
    BatchIs(items, a, b, k - a);
  }

  lemma BatchPathsDistinct(items: seq<Item>, a: nat, b: nat, i: nat, j: nat)
    requires T.PathOrder(items) && a <= b <= |items| && i < j < b - a
    ensures BatchOf(items, a, b)[i].path != BatchOf(items, a, b)[j].path
  {
    BatchIs(items, a, b, i);
    BatchIs(items, a, b, j);
    if items[a + i].path == items[a + j].path {
      PathsDistinct(items, a + i, a + j);
    }
  }

  lemma PlanParts(s: R.Store, items: seq<Item>, root: Root)
    requires Plan(items, root) && Ready(s, items, root)
    ensures T.PathOrder(items) && Apart(items) && AllOk(items, root) && RootKnown(s, root) && s.root == root.id
  {
  }

  lemma StaticChecks(s: R.Store, items: seq<Item>, root: Root, a: nat, b: nat)
    requires Plan(items, root) && Ready(s, items, root) && Holds(s, items, a)
    requires a <= b <= |items| && b - a <= R.MAX_BATCH
    ensures R.BatchOk(s, MetasOf(items, a, b), BatchOf(items, a, b))
  {
    hide Plan, Ready, Holds, MetasOf, BatchOf, R.ShapeOk, R.SizesOk, T.PathOrder, AllOk, RootKnown;
    var metas, batch := MetasOf(items, a, b), BatchOf(items, a, b);
    PlanParts(s, items, root);
    RootUntouched(s, items, root, a, b);
    forall i, j | 0 <= i < j < |batch|
      ensures batch[i].path != batch[j].path
    {
      BatchPathsDistinct(items, a, b, i, j);
    }
    forall id | id in metas
      ensures exists i :: 0 <= i < |batch| && batch[i].row.id == id
    {
      MetasOccur(items, a, b, id);
    }
    forall i | 0 <= i < |batch|
      ensures batch[i].row.id in metas && R.ShapeOk(s.root, batch[i].path, batch[i].row)
      ensures R.SizesOk(batch[i].row, metas[batch[i].row.id].dataSize)
    {
      BatchIs(items, a, b, i);
      ShapeAt(s, items, root, a, b, a + i);
    }
  }

  lemma AcceptedAt(s: R.Store, items: seq<Item>, root: Root, a: nat, b: nat, c: R.Incoming)
    requires Plan(items, root) && Ready(s, items, root) && Holds(s, items, a) && a <= b <= |items|
    requires c in BatchOf(items, a, b)
    ensures c.path in After(s, items, a, b).rows && After(s, items, a, b).rows[c.path] == c.row
    ensures c.path != [] && R.ParentOk(After(s, items, a, b), c.path, c.row)
    ensures |c.path| == 1 ==> c.row.json == root.json && c.row.offset + c.row.size <= root.dataSize
    ensures s.complete ==> c.path in s.rows
  {
    var k := BatchMember(items, a, b, c);
    AfterParent(s, items, root, a, b, k);
    AfterRows(s, items, a, b);
    assert ItemOk(items[k], root);
  }

  /** A stretch of the traversal is accepted when everything before it is stored. */
  lemma BatchAccepted(s: R.Store, items: seq<Item>, root: Root, a: nat, b: nat)
    requires Plan(items, root) && Ready(s, items, root) && Holds(s, items, a)
    requires a <= b <= |items| && b - a <= R.MAX_BATCH
    ensures R.CommitOk(s, MetasOf(items, a, b), BatchOf(items, a, b))
  {
    StaticChecks(s, items, root, a, b);
    AfterObjectsWithin(s, items, a, b);
    AfterRows(s, items, a, b);
    NoOverlapWithin(After(s, items, a, b).rows, items, root);
    forall c | c in BatchOf(items, a, b)
      ensures c.path in After(s, items, a, b).rows && After(s, items, a, b).rows[c.path] == c.row
      ensures c.path != [] && R.ParentOk(After(s, items, a, b), c.path, c.row)
      ensures |c.path| == 1 ==> c.row.json == root.json && c.row.offset + c.row.size <= root.dataSize
      ensures s.complete ==> c.path in s.rows
    {
      AcceptedAt(s, items, root, a, b, c);
    }
  }

  /** A committed stretch leaves the tables ready for the next one. */
  lemma BatchKeepsReady(s: R.Store, items: seq<Item>, root: Root, a: nat, b: nat, complete: bool)
    requires Plan(items, root) && Ready(s, items, root) && Holds(s, items, a)
    requires a <= b <= |items| && b - a <= R.MAX_BATCH && (complete ==> b == |items|)
    ensures R.CommitOk(s, MetasOf(items, a, b), BatchOf(items, a, b))
    ensures var t := R.Commit(s, MetasOf(items, a, b), BatchOf(items, a, b), complete).value;
            && Ready(t, items, root) && Holds(t, items, b)
            && s.rows.Keys <= t.rows.Keys && t.complete == (s.complete || complete)
  {
    BatchAccepted(s, items, root, a, b);
    R.CommitKeeps(s, MetasOf(items, a, b), BatchOf(items, a, b), complete);
    AfterRows(s, items, a, b);
    AfterObjectsWithin(s, items, a, b);
    RootUntouched(s, items, root, a, b);
  }

  /** Ids are hashes: no item is its root, and one id means one metadata record. */
  ghost predicate Identified(items: seq<Item>, root: Root) {
    SameIds(items) && forall k | 0 <= k < |items| :: items[k].entry.itemId != root.id
  }

  /** A walk over a framed root yields a storable plan. */
  lemma WalkIsPlan(filter: T.Filter, entries: seq<T.Entry>, root: Root)
    requires Laid(entries, root.json, root.dataSize)
    requires Identified(T.Walk(filter, entries, root.id, []).items, root)
    ensures Plan(T.Walk(filter, entries, root.id, []).items, root)
  {
    var items := T.Walk(filter, entries, root.id, []).items;
    LaidIsFramed(entries, root.json, root.dataSize);
    T.WalkInOrder(filter, entries, root.id, [], 0);
    T.WalkParents(filter, entries, root.id, []);
    WalkApart(filter, entries, root.id, [], root.json, root.dataSize);
    forall k | 0 <= k < |items|
      ensures ItemOk(items[k], root)
    {
      assert items[k] in items;
    }
  }

  // ----- the stored tables -----

  class BundleTables {
    const root: R.Id
    var objects: map<R.Id, R.Object>
    var rows: map<R.Path, R.Row>
    var complete: bool

    ghost function View(): R.Store
      reads this
    {
      R.Store(root, objects, rows, complete)
    }

    /** One transaction, statement by statement; a failed check rolls everything back. An accepted batch is stored as a
        whole beside all that was stored before, and every row stays readable; a refused one changes nothing. */
    method CommitBatch(metas: map<R.Id, R.Meta>, batch: seq<R.Incoming>, last: bool) returns (ok: bool)
      modifies this
      ensures ok <==> R.CommitOk(old(View()), metas, batch)
      ensures View() == if ok then R.Commit(old(View()), metas, batch, last).value else old(View())
      ensures ok ==> complete == (old(complete) || last) && (old(complete) ==> rows == old(rows))
      ensures ok ==> forall b | b in batch :: b.path in rows && rows[b.path] == b.row
      ensures ok ==> forall p | p in old(rows) :: p in rows && rows[p] == old(rows)[p]
      ensures ok ==> forall p | p in rows :: p in old(rows) || R.Incoming(p, rows[p]) in batch
      ensures R.Inv(old(View())) ==> R.Inv(View())
    {
      hide R.Inv, R.CommitOk, R.Indexed;
      ghost var s := View();
      ok := InsertBatch(metas, batch);
      if ok {
        R.IndexedHolds(batch);
        CommitOkParts(s, metas, batch);
        complete := complete || last;
        if R.Inv(s) {
          R.CommitKeeps(s, metas, batch, last);
        }
      }
    }

    /** All checks and inserts. */
    method InsertBatch(metas: map<R.Id, R.Meta>, batch: seq<R.Incoming>) returns (ok: bool)
      modifies this`objects, this`rows
      ensures ok <==> R.CommitOk(old(View()), metas, batch)
      ensures View() == if ok then R.Written(old(View()), metas, batch) else old(View())
    {
      hide R.Indexed, R.OverlapFound, R.ParentOk, R.ObjectsAgree, R.ShapeOk, R.SizesOk, R.WriteObjects;
      var objects0, rows0 := objects, rows;
      var valid := CheckBatch(metas, batch);
      var usable := IsBundle();
      var agree := Agree(metas);
      if !valid || !usable || !agree {
        return false;
      }
      ok := RootBounds(batch);
      if !ok {
        return;
      }
      PathsNonempty(View(), metas, batch);
      hide R.BatchOk;
      objects := Completed(metas);
      var inserted := InsertRows(batch);
      ok := !(complete && inserted);
      if ok {
        ok := RowsMatch(batch);
      }
      if !ok || R.OverlapFound(rows) {
        objects, rows, ok := objects0, rows0, false;
      }
    }

    /** The root is a completed transaction that is a bundle of one format. */
    method IsBundle() returns (ok: bool)
      ensures ok <==> R.RootOk(View())
    {
      if root !in objects || objects[root].kind != 0 || objects[root].meta.None? {
        return false;
      }
      var m := objects[root].meta.value;
      ok := m.binary != m.json;
    }

    /** No item is stored as a transaction or with other metadata. */
    method Agree(metas: map<R.Id, R.Meta>) returns (ok: bool)
      ensures ok <==> R.ObjectsAgree(View(), metas)
    {
      ok := !exists id :: id in metas && id in objects
                          && (objects[id].kind != 1 || (objects[id].meta.Some? && objects[id].meta.value != metas[id]));
    }

    /** The objects with the items of a batch completed. */
    method Completed(metas: map<R.Id, R.Meta>) returns (completed: map<R.Id, R.Object>)
      ensures completed == R.WriteObjects(objects, metas)
    {
      completed := objects + map id | id in metas :: R.Object(1, Some(metas[id]));
    }

    /** The checks on the batch alone: its size, its paths, offsets, sizes and parents, and that it comes with exactly the
        metadata of its items. */
    method CheckBatch(metas: map<R.Id, R.Meta>, batch: seq<R.Incoming>) returns (ok: bool)
      ensures ok <==> R.BatchOk(View(), metas, batch)
    {
      if |batch| > R.MAX_BATCH || root in metas {
        return false;
      }
      if exists id :: id in metas && forall i | 0 <= i < |batch| :: batch[i].row.id != id {
        return false;
      }
      hide R.ShapeOk, R.SizesOk;
      var seen: set<R.Path> := {};
      for i := 0 to |batch|
        invariant seen == set j | 0 <= j < i :: batch[j].path
        invariant forall j, k | 0 <= j < k < i :: batch[j].path != batch[k].path
        invariant forall j | 0 <= j < i ::
                    && batch[j].row.id in metas && R.ShapeOk(root, batch[j].path, batch[j].row)
                    && R.SizesOk(batch[j].row, metas[batch[j].row.id].dataSize)
      {
        if batch[i].path in seen {
          return false;
        }
        var described := Describes(batch[i].path, batch[i].row, metas);
        if !described {
          return false;
        }
        seen := seen + {batch[i].path};
      }
      ok := true;
    }

    /** A row has metadata, a path ending in its offset, room for its header, a payload of the size its metadata says,
        and the root for its parent exactly if it lies directly in it. */
    method Describes(path: R.Path, row: R.Row, metas: map<R.Id, R.Meta>) returns (ok: bool)
      ensures ok <==> row.id in metas && R.ShapeOk(root, path, row) && R.SizesOk(row, metas[row.id].dataSize)
    {
      if row.id !in metas || path == [] || |path| > Paths.MAX_DEPTH || path[|path| - 1] != row.offset || row.offset == 0
         || (!row.json && row.offset < R.MIN_BINARY_OFFSET) || row.dataOffset == 0 || row.size < row.dataOffset {
        return false;
      }
      var payload, left := metas[row.id].dataSize, row.size - row.dataOffset;
      ok := (if row.json then payload <= left else payload == left) && (|path| == 1) == (row.parent == root);
    }

    /** The items directly in the root have its format and lie within it. */
    method RootBounds(batch: seq<R.Incoming>) returns (ok: bool)
      requires R.RootOk(View())
      ensures ok <==> forall b | b in batch && |b.path| == 1 ::
                        b.row.json == objects[root].meta.value.json && b.row.offset + b.row.size <= objects[root].meta.value.dataSize
    {
      var m := objects[root].meta.value;
      for i := 0 to |batch|
        invariant forall j | 0 <= j < i && |batch[j].path| == 1 ::
                    batch[j].row.json == m.json && batch[j].row.offset + batch[j].row.size <= m.dataSize
      {
        var b := batch[i];
        if |b.path| == 1 && (b.row.json != m.json || b.row.offset + b.row.size > m.dataSize) {
          assert b in batch;
          return false;
        }
      }
      ok := true;
    }

    /** Insert the rows whose paths are not stored; tells whether there were any. */
    method InsertRows(batch: seq<R.Incoming>) returns (inserted: bool)
      requires forall i, j | 0 <= i < j < |batch| :: batch[i].path != batch[j].path
      modifies this`rows
      ensures rows == R.Indexed(batch) + old(rows)
      ensures inserted <==> exists b :: b in batch && b.path !in old(rows)
    {
      inserted := false;
      ghost var before := rows;
      for i := 0 to |batch|
        invariant rows == R.Indexed(batch[..i]) + before
        invariant inserted <==> exists j :: 0 <= j < i && batch[j].path !in before
      {
        NextIndexed(batch, i, before);
        hide R.Indexed;
        if batch[i].path !in rows {
          rows := rows[batch[i].path := batch[i].row];
          inserted := true;
        }
      }
      assert batch[..|batch|] == batch;
    }

    /** Every row of the batch is stored as it is, below a parent that can hold it. */
    method RowsMatch(batch: seq<R.Incoming>) returns (ok: bool)
      requires forall b | b in batch :: b.path != []
      ensures ok <==> forall b | b in batch :: b.path in rows && rows[b.path] == b.row && R.ParentOk(View(), b.path, b.row)
    {
      hide R.ParentOk;
      for i := 0 to |batch|
        invariant forall j | 0 <= j < i ::
                    batch[j].path in rows && rows[batch[j].path] == batch[j].row && R.ParentOk(View(), batch[j].path, batch[j].row)
      {
        var b := batch[i];
        assert b in batch;
        if b.path !in rows || rows[b.path] != b.row {
          return false;
        }
        var held := CanHold(b.path, b.row);
        if !held {
          return false;
        }
      }
      ok := true;
    }

    /** The parent of a row is complete, of one format, the row's own, stands at the row's parent path and is large
        enough. */
    method CanHold(path: R.Path, row: R.Row) returns (ok: bool)
      requires path != []
      ensures ok <==> R.ParentOk(View(), path, row)
    {
      if row.parent !in objects || objects[row.parent].meta.None? {
        return false;
      }
      var parent := objects[row.parent].meta.value;
      var above := path[..|path| - 1];
      ok := && parent.binary == !parent.json && parent.json == row.json
            && (above == [] || (above in rows && rows[above].id == row.parent))
            && row.offset + row.size <= parent.dataSize;
    }
  }

  lemma PathsNonempty(s: R.Store, metas: map<R.Id, R.Meta>, batch: seq<R.Incoming>)
    requires R.BatchOk(s, metas, batch)
    ensures forall b | b in batch :: b.path != []
    ensures forall i, j | 0 <= i < j < |batch| :: batch[i].path != batch[j].path
  {
  }

  lemma CommitOkParts(s: R.Store, metas: map<R.Id, R.Meta>, batch: seq<R.Incoming>)
    requires R.CommitOk(s, metas, batch)
    ensures s.complete ==> forall b | b in batch :: b.path in s.rows
    ensures forall b | b in batch :: var t := R.Written(s, metas, batch); b.path in t.rows && t.rows[b.path] == b.row
  {
  }

  /** One more row joins the stored ones unless its path is taken. */
  lemma NextIndexed(batch: seq<R.Incoming>, i: nat, stored: map<R.Path, R.Row>)
    requires i < |batch| && forall j, k | 0 <= j < k < |batch| :: batch[j].path != batch[k].path
    ensures var rows := R.Indexed(batch[..i]) + stored;
            && (batch[i].path in rows <==> batch[i].path in stored)
            && R.Indexed(batch[..i + 1]) + stored
               == if batch[i].path in stored then rows else rows[batch[i].path := batch[i].row]
  {
    assert batch[..i + 1][..i] == batch[..i];
    R.IndexedHolds(batch[..i]);
    assert R.Indexed(batch[..i + 1]) == R.Indexed(batch[..i])[batch[i].path := batch[i].row];
    hide R.Indexed;
  }

  // ----- batches of a traversal -----

  method NextBatch(walk: T.BundleTraversal, filter: T.Filter, size: nat)
    returns (r: Result<seq<Item>>, last: bool)
    requires walk.Valid() && size > 0
    modifies walk
    ensures walk.Valid()
    ensures var s := old(T.StackStream(filter, walk.stack));
            && (r.Err? ==> !s.ok && |s.items| < size)
            && (r.Ok? && last ==> s.ok && r.value == s.items && |r.value| < size)
            && (r.Ok? && !last ==> |r.value| == size
                                   && T.StackStream(filter, walk.stack).ok == s.ok
                                   && s.items == r.value + T.StackStream(filter, walk.stack).items)
  {
    var found: seq<Item> := [];
    ghost var s := T.StackStream(filter, walk.stack);
    while |found| < size
      invariant walk.Valid() && |found| <= size
      invariant T.StackStream(filter, walk.stack).ok == s.ok
      invariant s.items == found + T.StackStream(filter, walk.stack).items
      decreases size - |found|
    {
      var next := walk.NextMatching(filter);
      if next.Err? {
        return Err, false;
      }
      if next.value.None? {
        return Ok(found), true;
      }
      found := found + [next.value.value];
    }
    r, last := Ok(found), false;
  }

  datatype Outcome =
    | Done(occurrences: nat)
    | Failed       // the traversal reported an error
    | Refused      // a commit was refused
    | Crashed      // the process stopped between two statements

  /** `batch` is the next stretch of the plan and `rest` what the walk still holds behind it. */
  ghost predicate Upcoming(plan: T.Stream, stored: nat, batch: seq<Item>, last: bool, rest: T.Stream, size: nat) {
    && stored <= |plan.items| && plan.items[stored..] == batch + (if last then [] else rest.items)
    && |batch| <= size
    && (if last then plan.ok else |batch| == size && rest.ok == plan.ok)
  }

  lemma UpcomingBatch(plan: T.Stream, stored: nat, s: T.Stream, batch: seq<Item>, last: bool, rest: T.Stream, size: nat)
    requires stored <= |plan.items| && plan.items[stored..] == s.items && plan.ok == s.ok
    requires last ==> s.ok && batch == s.items && |batch| < size
    requires !last ==> |batch| == size && rest.ok == s.ok && s.items == batch + rest.items
    ensures Upcoming(plan, stored, batch, last, rest, size)
  {
    assert batch + [] == batch;
  }

  lemma UpcomingSays(plan: T.Stream, stored: nat, batch: seq<Item>, last: bool, rest: T.Stream, size: nat)
    requires Upcoming(plan, stored, batch, last, rest, size)
    ensures stored + |batch| <= |plan.items| && batch == plan.items[stored..stored + |batch|] && |batch| <= size
    ensures plan.items[stored + |batch|..] == if last then [] else rest.items
    ensures if last then plan.ok && stored + |batch| == |plan.items|
            else |batch| == size && rest.ok == plan.ok && |plan.items| == stored + size + |rest.items|
  {
    assert batch == plan.items[stored..][..|batch|];
    assert plan.items[stored..][|batch|..] == plan.items[stored + |batch|..];
  }

  /** Committing the next stretch always succeeds. */
  method StoreBatch(tables: BundleTables, batch: seq<Item>, last: bool,
                    ghost items: seq<Item>, ghost root: Root, ghost stored: nat)
    returns (ok: bool)
    requires Plan(items, root) && Ready(tables.View(), items, root) && Holds(tables.View(), items, stored)
    requires stored + |batch| <= |items| && batch == items[stored..stored + |batch|] && |batch| <= R.MAX_BATCH
    requires last ==> stored + |batch| == |items|
    modifies tables
    ensures ok && Ready(tables.View(), items, root) && Holds(tables.View(), items, stored + |batch|)
    ensures old(tables.rows).Keys <= tables.rows.Keys && tables.complete == (old(tables.complete) || last)
  {
    hide Plan, Ready, R.CommitOk, R.Commit;
    BatchKeepsReady(tables.View(), items, root, stored, stored + |batch|, last);
    RowsOfBatch(items, stored, stored + |batch|, batch);
    ok := tables.CommitBatch(Metas(batch), Rows(batch), last);
  }

  lemma NothingHeld(s: R.Store, items: seq<Item>)
    ensures Holds(s, items, 0)
  {
  }

  /** Commits the traversal batch by batch while the next batch is verified.  `budget` is the
      number of batches after which the process stops, if any. */
  method PersistBundle(entries: seq<T.Entry>, tables: BundleTables, filter: T.Filter, size: nat, budget: Option<nat>,
                       ghost root: Root) returns (r: Outcome)
    requires 1 <= size <= R.MAX_BATCH && root.id == tables.root
    requires Plan(T.Walk(filter, entries, root.id, []).items, root)
    requires Ready(tables.View(), T.Walk(filter, entries, root.id, []).items, root)
    modifies tables
    ensures !r.Refused?
    ensures Ready(tables.View(), T.Walk(filter, entries, root.id, []).items, root)
    ensures old(tables.rows).Keys <= tables.rows.Keys
    ensures r.Done? ==> T.Walk(filter, entries, root.id, []).ok && tables.complete
                        && r.occurrences == |T.Walk(filter, entries, root.id, []).items|
    ensures r.Failed? ==> !T.Walk(filter, entries, root.id, []).ok
    ensures !r.Done? ==> tables.complete == old(tables.complete)
    ensures r.Failed? ==> exists n: nat :: Holds(tables.View(), T.Walk(filter, entries, root.id, []).items, n)
                                      && |T.Walk(filter, entries, root.id, []).items| < n + 2 * size
    ensures r.Crashed? ==>
              budget.Some? && Holds(tables.View(), T.Walk(filter, entries, root.id, []).items, budget.value * size)
  {
    hide Plan, Ready, Holds, Upcoming, T.Walk, T.StackStream;
    ghost var plan := T.Walk(filter, entries, root.id, []);
    var walk := new T.BundleTraversal(entries, tables.root);
    var stored: nat := 0;
    var count: nat := 0;
    NothingHeld(tables.View(), plan.items);
    assert plan.items[0..] == plan.items;
    var batch, last := NextBatch(walk, filter, size);
    if batch.Err? {
      return Failed;
    }
    UpcomingBatch(plan, 0, plan, batch.value, last, T.StackStream(filter, walk.stack), size);
    while true
      invariant walk.Valid() && fresh(walk) && batch.Ok?
      invariant Ready(tables.View(), plan.items, root) && Holds(tables.View(), plan.items, stored) && stored == count * size
      invariant old(tables.rows).Keys <= tables.rows.Keys && tables.complete == old(tables.complete)
      invariant Upcoming(plan, stored, batch.value, last, T.StackStream(filter, walk.stack), size)
      decreases |plan.items| - stored
    {
      if budget == Some(count) {
        return Crashed;
      }
      ghost var rest := T.StackStream(filter, walk.stack);
      UpcomingSays(plan, stored, batch.value, last, rest, size);
      var next, nextLast := Ok([]), true;
      if !last {
        // The next batch is verified while this one commits; when that fails, the commit
        // may be abandoned.
        next, nextLast := NextBatch(walk, filter, size);
        var abandoned: bool := *;
        if next.Err? && abandoned {
          return Failed;
        }
      }
      var ok := StoreBatch(tables, batch.value, last, plan.items, root, stored);
      if !ok {
        return Refused;
      }
      stored := stored + |batch.value|;
      if last {
        return Done(stored);
      }
      if next.Err? {
        return Failed;
      }
      OneBatchMore(count, size);
      count := count + 1;
      UpcomingBatch(plan, stored, rest, next.value, nextLast, T.StackStream(filter, walk.stack), size);
      batch, last := next, nextLast;
    }
  }

  lemma OneBatchMore(count: nat, size: nat)
    ensures (count + 1) * size == count * size + size
  {
  }

  function Metas(items: seq<Item>): map<R.Id, R.Meta> {
    MetasOf(items, 0, |items|)
  }

  function Rows(items: seq<Item>): seq<R.Incoming> {
    BatchOf(items, 0, |items|)
  }

  lemma {:induction false} RowsOfBatch(items: seq<Item>, a: nat, b: nat, part: seq<Item>)
    requires a <= b <= |items| && part == items[a..b]
    ensures Metas(part) == MetasOf(items, a, b) && Rows(part) == BatchOf(items, a, b)
  {
    StretchShift(items, a, b, part, b - a);
  }

  lemma {:induction false} StretchShift(items: seq<Item>, a: nat, b: nat, part: seq<Item>, n: nat)
    requires a + n <= b <= |items| && part == items[a..b]
    ensures MetasOf(part, 0, n) == MetasOf(items, a, a + n) && BatchOf(part, 0, n) == BatchOf(items, a, a + n)
  {
    if n > 0 {
      StretchShift(items, a, b, part, n - 1);
      assert part[n - 1] == items[a + n - 1];
    }
  }

  /** The row and the metadata of an occurrence say where it lies, below what, and what it is. */
  ghost predicate StoredAs(t: R.Store, o: Item) {
    && o.path in t.rows
    && var row := t.rows[o.path];
    && row.id == o.entry.itemId && row.parent == o.parent && row.json == o.entry.json
    && row.offset == o.entry.offset && row.size == o.entry.size && row.dataOffset == o.entry.dataOffset
    && row.id in t.objects && t.objects[row.id].kind == 1 && t.objects[row.id].meta.Some?
    && var m := t.objects[row.id].meta.value;
    && m.dataSize == o.entry.dataSize && m.other == o.entry.other
    && (m.binary <==> o.entry.payload.Bundle? && !o.entry.payload.format)
    && (m.json <==> o.entry.payload.Bundle? && o.entry.payload.format)
  }

  /** A complete bundle stores exactly the traversal, then and after any further commits and other writes. */
  lemma CompleteIsExact(s: R.Store, items: seq<Item>, root: Root, steps: seq<R.Step>)
    requires Plan(items, root) && Ready(s, items, root) && s.complete
    ensures var t := R.Run(s, steps);
            && t.complete
            && (forall p :: p in t.rows <==> exists k :: 0 <= k < |items| && items[k].path == p)
            && (forall k | 0 <= k < |items| :: StoredAs(t, items[k]))
  {
    R.CompleteStays(s, steps);
    hide R.Run;
    forall k | 0 <= k < |items|
      ensures StoredAs(R.Run(s, steps), items[k])
    {
      RowIsOwn(s.rows, items, k);
      R.RowOkAt(s, items[k].path);
      R.ObjectsStay(s, steps, items[k].entry.itemId);
    }
  }
}
