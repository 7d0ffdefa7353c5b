/** The stored occurrences of one bundle root: what a commit checks, and what a reader checks again. */
module BundleRows {
  import opened Wrappers
  import Paths

  type Id = nat
  type Path = Paths.Path

  const MAX_BATCH: nat := 4096
  const MIN_BINARY_OFFSET: nat := 96
  const MAX_U128: nat := 0x1_0000_0000_0000_0000_0000_0000_0000_0000 - 1

  type u128 = x: nat | x <= MAX_U128

  /** Metadata of an object; `other` stands for the fields that are only compared. */
  datatype Meta = Meta(dataSize: u128, binary: bool, json: bool, other: nat)

  datatype Object = Object(kind: nat, meta: Option<Meta>)

  datatype Row = Row(id: Id, parent: Id, offset: u128, size: u128, dataOffset: u128, json: bool)

  datatype Incoming = Incoming(path: Path, row: Row)

  /** The tables, narrowed to one root. */
  datatype Store = Store(root: Id, objects: map<Id, Object>, rows: map<Path, Row>, complete: bool)

  function Front(path: Path): Path
    requires path != []
  {
    path[..|path| - 1]
  }

  predicate IsComplete(s: Store, id: Id, kind: nat) {
    id in s.objects && s.objects[id].kind == kind && s.objects[id].meta.Some?
  }

  predicate HasMeta(s: Store, id: Id) {
    id in s.objects && s.objects[id].meta.Some?
  }

  /** A supported, unambiguous bundle format. */
  predicate Unambiguous(m: Meta) { m.binary != m.json }

  /** The canonical root: a completed transaction that is a bundle. */
  ghost predicate RootOk(s: Store) {
    IsComplete(s, s.root, 0) && Unambiguous(s.objects[s.root].meta.value)
  }

  // ----- checks on a batch alone -----

  ghost predicate SizesOk(row: Row, dataSize: nat) {
    row.dataOffset <= row.size &&
    if row.json then dataSize <= row.size - row.dataOffset else dataSize == row.size - row.dataOffset
  }

  ghost predicate ShapeOk(root: Id, path: Path, row: Row) {
    && 1 <= |path| <= Paths.MAX_DEPTH
    && path[|path| - 1] == row.offset
    && row.offset > 0 && (row.json || row.offset >= MIN_BINARY_OFFSET)
    && row.dataOffset > 0
    && ((|path| == 1) <==> (row.parent == root))
  }

  ghost predicate BatchOk(s: Store, metas: map<Id, Meta>, batch: seq<Incoming>) {
    && |batch| <= MAX_BATCH
    && (forall i, j | 0 <= i < j < |batch| :: batch[i].path != batch[j].path)
    && s.root !in metas
    && (forall id | id in metas :: exists i :: 0 <= i < |batch| && batch[i].row.id == id)
    && (forall i | 0 <= i < |batch| ::
          var b := batch[i];
          && b.row.id in metas && ShapeOk(s.root, b.path, b.row) && SizesOk(b.row, metas[b.row.id].dataSize))
  }

  // ----- writing -----

  /** Items are written once; a stored transaction or other metadata is a conflict. */
  ghost predicate ObjectsAgree(s: Store, metas: map<Id, Meta>) {
    forall id | id in metas && id in s.objects ::
      s.objects[id].kind == 1 && (s.objects[id].meta.Some? ==> s.objects[id].meta.value == metas[id])
  }

  ghost function WriteObjects(objects: map<Id, Object>, metas: map<Id, Meta>): map<Id, Object> {
    objects + map id | id in metas :: Object(1, Some(metas[id]))
  }

  /** The rows of a batch without repeated paths. */
  ghost function Indexed(batch: seq<Incoming>): map<Path, Row> {
    if batch == [] then map[]
    else var last := batch[|batch| - 1]; Indexed(batch[..|batch| - 1])[last.path := last.row]
  }

  /** The parent of a stored row: a bundle of the row's format, found at the row's parent
      path, large enough for it. */
  ghost predicate ParentOk(s: Store, path: Path, row: Row)
    requires path != []
  {
    && HasMeta(s, row.parent)
    && var m := s.objects[row.parent].meta.value;
       && Unambiguous(m) && m.json == row.json
       && (|path| > 1 ==> Front(path) in s.rows && s.rows[Front(path)].id == row.parent)
       && row.offset + row.size <= m.dataSize
  }

  predicate Siblings(p: Path, q: Path) {
    p != [] && q != [] && p != q && Front(p) == Front(q)
  }

  /** `q` is the row a window ordered by offset puts right before `p`. */
  predicate Previous(rows: map<Path, Row>, q: Path, p: Path) {
    && q in rows && p in rows && Siblings(q, p) && rows[q].offset < rows[p].offset
    && forall c :: c in rows && Siblings(c, p) && rows[c].offset < rows[p].offset ==> rows[c].offset <= rows[q].offset
  }

  /** The stored query: some row starts before the row ahead of it ends. */
  predicate OverlapFound(rows: map<Path, Row>) {
    exists q, p :: q in rows && p in rows && Previous(rows, q, p) && rows[p].offset < rows[q].offset + rows[q].size
  }

  ghost predicate CommitOk(s: Store, metas: map<Id, Meta>, batch: seq<Incoming>) {
    && RootOk(s) && BatchOk(s, metas, batch)
    && (forall b | b in batch && |b.path| == 1 ::
          b.row.json == s.objects[s.root].meta.value.json
          && b.row.offset + b.row.size <= s.objects[s.root].meta.value.dataSize)
    && ObjectsAgree(s, metas)
    && (s.complete ==> forall b | b in batch :: b.path in s.rows)
    && var t := Written(s, metas, batch);
       && (forall b | b in batch :: b.path in t.rows && t.rows[b.path] == b.row && ParentOk(t, b.path, b.row))
       && !OverlapFound(t.rows)
  }

  /** Objects completed and new rows inserted; stored rows win over incoming ones. */
  ghost function Written(s: Store, metas: map<Id, Meta>, batch: seq<Incoming>): (t: Store) {
    s.(objects := WriteObjects(s.objects, metas), rows := Indexed(batch) + s.rows)
  }

  ghost function Commit(s: Store, metas: map<Id, Meta>, batch: seq<Incoming>, complete: bool): Result<Store> {
    if CommitOk(s, metas, batch) then Ok(Written(s, metas, batch).(complete := s.complete || complete)) else Err
  }

  // ----- what every stored row satisfies -----

  ghost predicate RowOk(s: Store, path: Path)
    requires path in s.rows
  {
    var row := s.rows[path];
    && ShapeOk(s.root, path, row)
    && IsComplete(s, row.id, 1) && SizesOk(row, s.objects[row.id].meta.value.dataSize)
    && ParentOk(s, path, row)
  }

  ghost predicate Disjoint(a: Row, b: Row) {
    a.offset + a.size <= b.offset || b.offset + b.size <= a.offset
  }

  ghost predicate Inv(s: Store) {
    && (forall path | path in s.rows :: RowOk(s, path))
    && (forall p, q | p in s.rows && q in s.rows && Siblings(p, q) :: Disjoint(s.rows[p], s.rows[q]))
  }

  // ----- the adjacent-pair test is exact -----

  ghost predicate Shaped(rows: map<Path, Row>) {
    forall p | p in rows :: p != [] && p[|p| - 1] == rows[p].offset
  }

  lemma SiblingOffsets(rows: map<Path, Row>, p: Path, q: Path)
    requires Shaped(rows) && p in rows && q in rows && Siblings(p, q)
    ensures rows[p].offset != rows[q].offset
  {
    assert p == Front(p) + [p[|p| - 1]];
    assert q == Front(q) + [q[|q| - 1]];
  }

  /** Below any sibling of `p` and `p` there is a row directly before `p`. */
  lemma {:induction false} PreviousExists(rows: map<Path, Row>, a: Path, p: Path) returns (q: Path)
    requires Shaped(rows) && a in rows && p in rows && Siblings(a, p) && rows[a].offset < rows[p].offset
    ensures Previous(rows, q, p) && rows[a].offset <= rows[q].offset
    decreases rows[p].offset - rows[a].offset
  {
    if c :| c in rows && Siblings(c, p) && rows[a].offset < rows[c].offset < rows[p].offset {
      q := PreviousExists(rows, c, p);
    } else {
      q := a;
    }
  }

  lemma {:induction false} NoOverlapBetween(rows: map<Path, Row>, a: Path, p: Path)
    requires Shaped(rows) && !OverlapFound(rows)
    requires a in rows && p in rows && Siblings(a, p) && rows[a].offset < rows[p].offset
    ensures rows[a].offset + rows[a].size <= rows[p].offset
    decreases rows[p].offset
  {
    var q := PreviousExists(rows, a, p);
    if rows[q].offset == rows[a].offset {
      if q != a {
        SiblingOffsets(rows, a, q);
      }
    } else {
      NoOverlapBetween(rows, a, q);
    }
  }

  /** No adjacent pair overlaps exactly when no two siblings do. */
  lemma OverlapTestIsExact(rows: map<Path, Row>)
    requires Shaped(rows) && forall p | p in rows :: rows[p].size > 0
    ensures OverlapFound(rows) <==>
              exists p, q :: p in rows && q in rows && Siblings(p, q) && !Disjoint(rows[p], rows[q])
  {
    if OverlapFound(rows) {
      var q, p :| q in rows && p in rows && Previous(rows, q, p) && rows[p].offset < rows[q].offset + rows[q].size;
      assert !Disjoint(rows[p], rows[q]);
    } else {
      forall p, q | p in rows && q in rows && Siblings(p, q)
        ensures Disjoint(rows[p], rows[q])
      {
        SiblingOffsets(rows, p, q);
        if rows[p].offset < rows[q].offset {
          NoOverlapBetween(rows, p, q);
        } else {
          NoOverlapBetween(rows, q, p);
        }
      }
    }
  }

  // ----- commits keep every stored row readable -----

  lemma {:induction false} IndexedHolds(batch: seq<Incoming>)
    ensures forall path :: path in Indexed(batch) ==> Incoming(path, Indexed(batch)[path]) in batch
    ensures forall b | b in batch :: b.path in Indexed(batch)
  {
    if batch != [] {
      IndexedHolds(batch[..|batch| - 1]);
      assert batch == batch[..|batch| - 1] + [batch[|batch| - 1]];
    }
  }

  /** Other writers only add objects and complete pending ones. */
  ghost predicate Grown(s: Store, objects: map<Id, Object>) {
    forall id | id in s.objects ::
      && id in objects && objects[id].kind == s.objects[id].kind
      && (s.objects[id].meta.Some? ==> objects[id] == s.objects[id])
  }

  /** A row that was readable stays readable when objects and rows are only added. */
  lemma RowStays(s: Store, t: Store, path: Path)
    requires path in s.rows && RowOk(s, path)
    requires t.root == s.root && Grown(s, t.objects)
    requires forall p | p in s.rows :: p in t.rows && t.rows[p] == s.rows[p]
    ensures RowOk(t, path)
  {
  }

  lemma WrittenGrows(s: Store, metas: map<Id, Meta>, batch: seq<Incoming>)
    requires ObjectsAgree(s, metas)
    ensures Grown(s, Written(s, metas, batch).objects)
    ensures forall id | id in metas :: IsComplete(Written(s, metas, batch), id, 1)
                                    && Written(s, metas, batch).objects[id].meta.value == metas[id]
  {
  }

  /** An accepted incoming row is readable. */
  lemma RowEnters(s: Store, metas: map<Id, Meta>, batch: seq<Incoming>, i: nat)
    requires CommitOk(s, metas, batch) && i < |batch|
    ensures var t := Written(s, metas, batch);
            batch[i].path in t.rows && t.rows[batch[i].path] == batch[i].row && RowOk(t, batch[i].path)
  {
    assert batch[i] in batch;
    WrittenGrows(s, metas, batch);
    var t := Written(s, metas, batch);
    assert ParentOk(t, batch[i].path, batch[i].row);
  }

  lemma CommitKeeps(s: Store, metas: map<Id, Meta>, batch: seq<Incoming>, complete: bool)
    requires Inv(s) && CommitOk(s, metas, batch)
    ensures Inv(Commit(s, metas, batch, complete).value)
    ensures var t := Commit(s, metas, batch, complete).value;
            && (forall path | path in s.rows :: path in t.rows && t.rows[path] == s.rows[path])
            && (forall path | path in t.rows :: path in s.rows || Incoming(path, t.rows[path]) in batch)
            && (forall b | b in batch :: b.path in t.rows && t.rows[b.path] == b.row)
  {
    var w := Written(s, metas, batch);
    var t := Commit(s, metas, batch, complete).value;
    IndexedHolds(batch);
    WrittenGrows(s, metas, batch);
    forall path | path in t.rows
      ensures RowOk(t, path)
    {
      if path in s.rows {
        RowStays(s, t, path);
      } else {
        var i :| 0 <= i < |batch| && batch[i] == Incoming(path, t.rows[path]);
        RowEnters(s, metas, batch, i);
        RowStays(w, t, path);
      }
    }
    NoOverlapStays(t);
  }

  lemma NoOverlapStays(t: Store)
    requires forall path | path in t.rows :: RowOk(t, path)
    requires !OverlapFound(t.rows)
    ensures Inv(t)
  {
    assert Shaped(t.rows);
    OverlapTestIsExact(t.rows);
  }

  datatype Step =
    | CommitStep(metas: map<Id, Meta>, batch: seq<Incoming>, complete: bool)
    | OtherWriter(objects: map<Id, Object>)

  ghost function Next(s: Store, step: Step): Store {
    match step
    case CommitStep(metas, batch, complete) =>
      (match Commit(s, metas, batch, complete) case Ok(t) => t case Err => s)
    case OtherWriter(objects) => if Grown(s, objects) then s.(objects := objects) else s
  }

  ghost function Run(s: Store, steps: seq<Step>): Store {
    if steps == [] then s else Next(Run(s, steps[..|steps| - 1]), steps[|steps| - 1])
  }

  lemma GrowthKeeps(s: Store, objects: map<Id, Object>)
    requires Inv(s) && Grown(s, objects)
    ensures Inv(s.(objects := objects))
  {
    var t := s.(objects := objects);
    forall path | path in t.rows
      ensures RowOk(t, path)
    {
      assert RowOk(s, path);
    }
  }

  lemma {:induction false} RunKeeps(root: Id, objects: map<Id, Object>, steps: seq<Step>)
    ensures Inv(Run(Store(root, objects, map[], false), steps))
    ensures Run(Store(root, objects, map[], false), steps).root == root
  {
    if steps != [] {
      RunKeeps(root, objects, steps[..|steps| - 1]);
      var s := Run(Store(root, objects, map[], false), steps[..|steps| - 1]);
      match steps[|steps| - 1]
      case CommitStep(metas, batch, complete) =>
        if CommitOk(s, metas, batch) { CommitKeeps(s, metas, batch, complete); }
      case OtherWriter(objects') =>
        if Grown(s, objects') { GrowthKeeps(s, objects'); }
    }
  }

  lemma NothingNew(s: Store, metas: map<Id, Meta>, batch: seq<Incoming>)
    requires s.complete && CommitOk(s, metas, batch)
    ensures Written(s, metas, batch).rows == s.rows
  {
    hide OverlapFound, ParentOk, BatchOk, RootOk, ObjectsAgree, Indexed;
    IndexedHolds(batch);
    assert forall p | p in Indexed(batch) :: p in s.rows;
  }

  lemma CompleteStep(s: Store, step: Step)
    requires s.complete
    ensures Next(s, step).complete && Next(s, step).rows == s.rows && Next(s, step).root == s.root
  {
    hide CommitOk;
    if step.CommitStep? && CommitOk(s, step.metas, step.batch) {
      NothingNew(s, step.metas, step.batch);
    }
  }

  lemma ObjectStep(s: Store, step: Step, id: Id)
    requires id in s.objects && s.objects[id].meta.Some? && s.objects[id].kind == 1
    ensures id in Next(s, step).objects && Next(s, step).objects[id] == s.objects[id]
  {
    hide OverlapFound, ParentOk, BatchOk, RootOk, Indexed;
  }

  /** Metadata once written stays. */
  lemma {:induction false} ObjectsStay(s: Store, steps: seq<Step>, id: Id)
    requires id in s.objects && s.objects[id].meta.Some? && s.objects[id].kind == 1
    ensures id in Run(s, steps).objects && Run(s, steps).objects[id] == s.objects[id]
  {
    hide Next;
    if steps != [] {
      ObjectsStay(s, steps[..|steps| - 1], id);
      ObjectStep(Run(s, steps[..|steps| - 1]), steps[|steps| - 1], id);
    }
  }

  /** A complete bundle accepts no new occurrence: its rows never change again, whoever commits or writes. */
  lemma {:induction false} CompleteStays(s: Store, steps: seq<Step>)
    requires s.complete
    ensures Run(s, steps).complete && Run(s, steps).rows == s.rows && Run(s, steps).root == s.root
  {
    hide Next;
    if steps != [] {
      CompleteStays(s, steps[..|steps| - 1]);
      CompleteStep(Run(s, steps[..|steps| - 1]), steps[|steps| - 1]);
    }
  }

  // ----- reading -----

  /** One level of a looked-up item: the join drops levels whose objects are incomplete. */
  function ReadRows(s: Store, path: Path, n: nat): seq<(Incoming, nat)>
    requires n <= |path|
  {
    if n == 0 then []
    else
      var prefix := path[..n];
      ReadRows(s, path, n - 1)
      + if prefix in s.rows && IsComplete(s, s.rows[prefix].id, 1) && HasMeta(s, s.rows[prefix].parent)
        then [(Incoming(prefix, s.rows[prefix]), s.objects[s.rows[prefix].id].meta.value.dataSize)]
        else []
  }

  lemma RowOkAt(s: Store, path: Path)
    requires Inv(s) && path in s.rows
    ensures RowOk(s, path)
  {
  }

  /** An entry read is the row at that depth, with the size of its payload. */
  ghost predicate ReadAt(s: Store, path: Path, k: nat, entry: (Incoming, nat)) {
    k < |path| &&
    var prefix := path[..k + 1];
    && prefix in s.rows && entry.0 == Incoming(prefix, s.rows[prefix])
    && IsComplete(s, s.rows[prefix].id, 1)
    && entry.1 == s.objects[s.rows[prefix].id].meta.value.dataSize
  }

  lemma ReadOne(s: Store, path: Path, n: nat)
    requires Inv(s) && 0 < n <= |path| && path[..n] in s.rows
    ensures |ReadRows(s, path, n)| == |ReadRows(s, path, n - 1)| + 1
    ensures ReadRows(s, path, n)[..|ReadRows(s, path, n - 1)|] == ReadRows(s, path, n - 1)
    ensures ReadAt(s, path, n - 1, ReadRows(s, path, n)[|ReadRows(s, path, n - 1)|])
  {
    RowOkAt(s, path[..n]);
    hide Inv;
  }

  lemma ReadNone(s: Store, path: Path)
    ensures ReadRows(s, path, 0) == []
  {
  }

  lemma {:induction false} ReadRowsAll(s: Store, path: Path, n: nat)
    requires Inv(s) && path in s.rows && n <= |path|
    ensures |ReadRows(s, path, n)| == n
    ensures forall k | 0 <= k < n :: ReadAt(s, path, k, ReadRows(s, path, n)[k])
  {
    hide ReadAt, ReadRows, Inv;
    if n == 0 {
      ReadNone(s, path);
    } else {
      ReadRowsAll(s, path, n - 1);
      PrefixesStored(s, path);
      ReadOne(s, path, n);
      forall k | 0 <= k < n - 1
        ensures ReadRows(s, path, n)[k] == ReadRows(s, path, n - 1)[k]
      {
        assert ReadRows(s, path, n)[..n - 1][k] == ReadRows(s, path, n)[k];
      }
    }
  }

  lemma {:induction false} PrefixesStored(s: Store, path: Path)
    requires Inv(s) && path in s.rows
    ensures forall k | 0 < k <= |path| :: path[..k] in s.rows
    decreases |path|
  {
    assert RowOk(s, path);
    assert path[..|path|] == path;
    if |path| > 1 {
      PrefixesStored(s, Front(path));
      forall k | 0 < k < |path|
        ensures path[..k] in s.rows
      {
        assert Front(path)[..k] == path[..k];
      }
    }
  }

  /** The checks of the reader on one level, given what stands above it. */
  ghost predicate LevelCheck(parent: Id, parentPath: Path, depth: nat, payload: nat, level: Incoming, decoded: nat) {
    var row := level.row;
    && row.parent == parent
    && |level.path| == depth + 1 && |level.path| <= Paths.MAX_DEPTH
    && level.path[..|level.path| - 1] == parentPath
    && level.path[|level.path| - 1] == row.offset
    && row.offset > 0 && (row.json || row.offset >= MIN_BINARY_OFFSET)
    && row.dataOffset > 0 && SizesOk(row, decoded)
    && row.offset + row.size <= MAX_U128 && row.offset + row.size <= payload
  }

  /** The next level passes the reader's checks. */
  lemma LevelPasses(s: Store, path: Path, rows: seq<(Incoming, nat)>, n: nat)
    requires Inv(s) && path in s.rows && rows == ReadRows(s, path, |path|)
    requires n < |rows| && HasMeta(s, s.root)
    ensures LevelFits(s.root, s.objects[s.root].meta.value.dataSize, rows, n)
  {
    hide Inv, ReadRows, ReadAt, RowOk, LevelCheck;
    ReadRowsAll(s, path, |path|);
    PrefixesStored(s, path);
    assert ReadAt(s, path, n, rows[n]);
    RowOkAt(s, path[..n + 1]);
    if n == 0 {
      FirstPasses(s, path, s.objects[s.root].meta.value.dataSize, rows[0]);
    } else {
      assert ReadAt(s, path, n - 1, rows[n - 1]);
      NextPasses(s, path, n, rows[n - 1], rows[n]);
    }
  }

  lemma FirstPasses(s: Store, path: Path, payload: nat, entry: (Incoming, nat))
    requires ReadAt(s, path, 0, entry) && RowOk(s, path[..1]) && HasMeta(s, s.root)
    requires payload == s.objects[s.root].meta.value.dataSize
    ensures LevelCheck(s.root, [], 0, payload, entry.0, entry.1)
  {
  }

  lemma NextPasses(s: Store, path: Path, n: nat, last: (Incoming, nat), entry: (Incoming, nat))
    requires n > 0 && ReadAt(s, path, n - 1, last) && ReadAt(s, path, n, entry) && RowOk(s, path[..n + 1])
    ensures LevelCheck(last.0.row.id, last.0.path, n, last.1, entry.0, entry.1)
  {
    assert Front(path[..n + 1]) == path[..n];
  }

  lemma RootKnown(s: Store, path: Path)
    requires Inv(s) && path in s.rows
    ensures path != [] && HasMeta(s, s.root)
  {
    PrefixesStored(s, path);
    assert RowOk(s, path);
    assert RowOk(s, path[..1]);
  }

  lemma TargetPasses(s: Store, path: Path, rows: seq<(Incoming, nat)>)
    requires Inv(s) && path in s.rows && rows == ReadRows(s, path, |path|)
    ensures |rows| == |path| > 0 && IsComplete(s, s.rows[path].id, 1)
    ensures rows[|rows| - 1].0.row == s.rows[path]
    ensures rows[|rows| - 1].1 == s.objects[s.rows[path].id].meta.value.dataSize
    ensures forall k | 0 <= k < |rows| :: LevelOf(s, path, k, rows[k].0)
  {
    ReadRowsAll(s, path, |path|);
    RowOkAt(s, path);
    hide Inv, ReadRows;
    assert path[..|path|] == path;
    assert ReadAt(s, path, |path| - 1, rows[|path| - 1]);
    forall k | 0 <= k < |rows|
      ensures LevelOf(s, path, k, rows[k].0)
    {
      assert ReadAt(s, path, k, rows[k]);
    }
  }

  /** The checks of the reader on the level at depth `n`, given those above it. */
  ghost predicate LevelFits(root: Id, rootSize: nat, rows: seq<(Incoming, nat)>, n: nat)
    requires n < |rows|
  {
    if n == 0 then LevelCheck(root, [], 0, rootSize, rows[0].0, rows[0].1)
    else LevelCheck(rows[n - 1].0.row.id, rows[n - 1].0.path, n, rows[n - 1].1, rows[n].0, rows[n].1)
  }

  /** One level: its parent, path, offsets and sizes. */
  method CheckLevel(parent: Id, parentPath: Path, depth: nat, payload: nat, level: Incoming, decoded: nat) returns (ok: bool)
    ensures ok <==> LevelCheck(parent, parentPath, depth, payload, level, decoded)
  {
    var path, row := level.path, level.row;
    if row.parent != parent || |path| != depth + 1 || |path| > Paths.MAX_DEPTH
       || path[..|path| - 1] != parentPath || path[|path| - 1] != row.offset
       || row.offset == 0 || (!row.json && row.offset < MIN_BINARY_OFFSET)
       || row.dataOffset == 0 || row.size < row.dataOffset
       || row.offset + row.size > MAX_U128 || row.offset + row.size > payload {
      return false;
    }
    ok := if row.json then decoded <= row.size - row.dataOffset else decoded == row.size - row.dataOffset;
  }

  /** The loop over the levels, each checked against the one above: accepts exactly the levels that fit together. */
  method CheckLevels(root: Id, rootSize: nat, rows: seq<(Incoming, nat)>) returns (r: Result<seq<Incoming>>, payload: nat)
    ensures r.Ok? <==> forall n | 0 <= n < |rows| :: LevelFits(root, rootSize, rows, n)
    ensures r.Ok? ==> |r.value| == |rows| && forall k | 0 <= k < |rows| :: r.value[k] == rows[k].0
    ensures r.Ok? ==> payload == if rows == [] then rootSize else rows[|rows| - 1].1
  {
    hide LevelCheck;
    payload := rootSize;
    var locations: seq<Incoming> := [];
    for n := 0 to |rows|
      invariant |locations| == n
      invariant forall k | 0 <= k < n :: locations[k] == rows[k].0 && LevelFits(root, rootSize, rows, k)
      invariant payload == if n == 0 then rootSize else rows[n - 1].1
    {
      var (level, decoded) := rows[n];
      var (parent, parentPath) := if locations == [] then (root, []) else (locations[n - 1].row.id, locations[n - 1].path);
      var ok := CheckLevel(parent, parentPath, |locations|, payload, level, decoded);
      if !ok {
        assert !LevelFits(root, rootSize, rows, n);
        return Err, payload;
      }
      payload := decoded;
      locations := locations + [level];
    }
    r := Ok(locations);
  }

  /** `level` is the stored ancestor of `path` with `k + 1` steps. */
  ghost predicate LevelOf(s: Store, path: Path, k: nat, level: Incoming) {
    k < |path| && level.path == path[..k + 1] && level.path in s.rows && level.row == s.rows[level.path]
  }

  /** Looking up a stored occurrence walks its ancestors from the root and never fails:
      every check made here was made when the rows were written. */
  method BundleLocation(s: Store, path: Path) returns (r: Result<seq<Incoming>>)
    requires Inv(s) && path in s.rows
    ensures r.Ok? && |r.value| == |path|
    ensures forall k | 0 <= k < |r.value| :: LevelOf(s, path, k, r.value[k])
  {
    RootKnown(s, path);
    var rows := ReadRows(s, path, |path|);
    TargetPasses(s, path, rows);
    forall n | 0 <= n < |rows|
      ensures LevelFits(s.root, s.objects[s.root].meta.value.dataSize, rows, n)
    {
      LevelPasses(s, path, rows, n);
    }
    var payload;
    r, payload := CheckLevels(s.root, s.objects[s.root].meta.value.dataSize, rows);
    if r.Err? {
      return;
    }
    var target := s.rows[path].id;
    if r.value[|r.value| - 1].row.id != target || payload != s.objects[target].meta.value.dataSize {
      r := Err;
    }
  }

  /** The first path at which an item is stored. */
  method FirstPath(rows: map<Path, Row>, id: Id) returns (first: Option<Path>)
    ensures first.None? <==> forall p | p in rows :: rows[p].id != id
    ensures first.Some? ==> first.value in rows && rows[first.value].id == id
                            && forall p | p in rows && rows[p].id == id :: !Paths.Less(p, first.value)
  {
    first := None;
    var todo := rows.Keys;
    while todo != {}
      invariant todo <= rows.Keys
      invariant first.None? <==> forall p | p in rows.Keys - todo :: rows[p].id != id
      invariant first.Some? ==> first.value in rows && rows[first.value].id == id
                                && forall p | p in rows.Keys - todo && rows[p].id == id :: !Paths.Less(p, first.value)
      decreases |todo|
    {
      var path :| path in todo;
      if rows[path].id == id && (first.None? || Paths.Less(path, first.value)) {
        forall p | p in rows.Keys - todo && rows[p].id == id
          ensures !Paths.Less(p, path)
        {
          if Paths.Less(p, path) {
            Paths.Transitive(p, path, first.value);
          }
        }
        Paths.Irreflexive(path);
        first := Some(path);
      }
      todo := todo - {path};
    }
  }

  /** Looking up an item finds its first occurrence in the root if there is one, and then never fails. */
  method LookUp(s: Store, id: Id) returns (found: Option<Result<seq<Incoming>>>)
    requires Inv(s)
    ensures found.None? <==> forall p | p in s.rows :: s.rows[p].id != id
    ensures found.Some? ==>
              && found.value.Ok? && found.value.value != []
              && var levels := found.value.value;
                 var path := levels[|levels| - 1].path;
              && path in s.rows && s.rows[path].id == id
              && (forall p | p in s.rows && s.rows[p].id == id :: !Paths.Less(p, path))
              && |levels| == |path| && forall k | 0 <= k < |levels| :: LevelOf(s, path, k, levels[k])
  {
    var first := FirstPath(s.rows, id);
    if first.None? {
      return None;
    }
    RootKnown(s, first.value);
    var levels := BundleLocation(s, first.value);
    assert first.value[..|first.value|] == first.value;
    assert LevelOf(s, first.value, |first.value| - 1, levels.value[|first.value| - 1]);
    found := Some(levels);
  }

  // ----- an item in several roots -----

  /** One place of a root on the chain, with the tables of that root. */
  datatype Standing = Standing(height: nat, position: nat, store: Store)

  function Rank(o: Standing, path: Path): Path {
    [o.height, o.position] + path
  }

  /** By height, then by position in the block, then by path. */
  ghost predicate Precedes(a: Standing, p: Path, b: Standing, q: Path) {
    a.height < b.height
    || (a.height == b.height && (a.position < b.position || (a.position == b.position && Paths.Less(p, q))))
  }

  lemma RankOrders(a: Standing, p: Path, b: Standing, q: Path)
    ensures Paths.Less(Rank(a, p), Rank(b, q)) <==> Precedes(a, p, b, q)
  {
    assert Rank(a, p)[1..] == [a.position] + p && Rank(a, p)[1..][1..] == p;
    assert Rank(b, q)[1..] == [b.position] + q && Rank(b, q)[1..][1..] == q;
  }

  ghost predicate Occurs(standings: seq<Standing>, id: Id, i: int, path: Path) {
    0 <= i < |standings| && path in standings[i].store.rows && standings[i].store.rows[path].id == id
  }

  /** Of all occurrences of an item in all roots the first by height, position and path, and all its ancestors.
      Nothing is found exactly if there is no occurrence. */
  method FindItem(standings: seq<Standing>, id: Id) returns (at: Option<nat>, levels: Result<seq<Incoming>>)
    requires forall i | 0 <= i < |standings| :: Inv(standings[i].store)
    ensures at.None? <==> forall i, p :: !Occurs(standings, id, i, p)
    ensures at.Some? ==>
              && levels.Ok? && levels.value != []
              && var path := levels.value[|levels.value| - 1].path;
              && Occurs(standings, id, at.value, path) && |levels.value| == |path|
              && (forall k | 0 <= k < |path| :: LevelOf(standings[at.value].store, path, k, levels.value[k]))
              && forall i, p :: Occurs(standings, id, i, p) ==> !Precedes(standings[i], p, standings[at.value], path)
  {
    hide Inv, LevelOf;
    at, levels := None, Err;
    var best: Path := [];
    for i := 0 to |standings|
      invariant at.Some? ==> Occurs(standings, id, at.value, best)
      invariant forall j, p :: Occurs(standings, id, j, p) && j < i ==>
                  at.Some? && !Paths.Less(Rank(standings[j], p), Rank(standings[at.value], best))
    {
      var first := FirstPath(standings[i].store.rows, id);
      if first.Some? {
        FirstRanks(standings, id, i, first.value);
        if at.None? || Paths.Less(Rank(standings[i], first.value), Rank(standings[at.value], best)) {
          if at.Some? {
            Paths.NotBoth(Rank(standings[i], first.value), Rank(standings[at.value], best));
            KeepsFirst(standings, id, i, Rank(standings[at.value], best), Rank(standings[i], first.value));
          }
          at, best := Some(i), first.value;
        } else {
          OwnFirst(standings, id, i, Rank(standings[i], first.value), Rank(standings[at.value], best));
        }
      }
    }
    if at.Some? {
      RootKnown(standings[at.value].store, best);
      levels := BundleLocation(standings[at.value].store, best);
      assert best[..|best|] == best;
      assert LevelOf(standings[at.value].store, best, |best| - 1, levels.value[|best| - 1]);
      LastLevel(standings[at.value].store, best, levels.value[|best| - 1]);
      forall i, p | Occurs(standings, id, i, p)
        ensures !Precedes(standings[i], p, standings[at.value], best)
      {
        RankOrders(standings[i], p, standings[at.value], best);
      }
    }
  }

  lemma LastLevel(s: Store, path: Path, level: Incoming)
    requires path != [] && LevelOf(s, path, |path| - 1, level)
    ensures level.path == path
  {
    assert path[..|path|] == path;
  }

  /** The first path of a root ranks first among its occurrences there. */
  lemma FirstRanks(standings: seq<Standing>, id: Id, i: nat, first: Path)
    requires Occurs(standings, id, i, first)
    requires forall p :: Occurs(standings, id, i, p) ==> !Paths.Less(p, first)
    ensures forall p :: Occurs(standings, id, i, p) ==> !Paths.Less(Rank(standings[i], p), Rank(standings[i], first))
  {
    forall p | Occurs(standings, id, i, p)
      ensures !Paths.Less(Rank(standings[i], p), Rank(standings[i], first))
    {
      Paths.CommonFront([standings[i].height, standings[i].position], p, first);
    }
  }

  lemma KeepsFirst(standings: seq<Standing>, id: Id, n: nat, was: Path, now: Path)
    requires !Paths.Less(was, now)
    requires forall j, p :: Occurs(standings, id, j, p) && j < n ==> !Paths.Less(Rank(standings[j], p), was)
    ensures forall j, p :: Occurs(standings, id, j, p) && j < n ==> !Paths.Less(Rank(standings[j], p), now)
  {
    forall j, p | Occurs(standings, id, j, p) && j < n
      ensures !Paths.Less(Rank(standings[j], p), now)
    {
      Paths.NotLessTransitive(Rank(standings[j], p), was, now);
    }
  }

  lemma OwnFirst(standings: seq<Standing>, id: Id, i: nat, own: Path, best: Path)
    requires !Paths.Less(own, best)
    requires forall p :: Occurs(standings, id, i, p) ==> !Paths.Less(Rank(standings[i], p), own)
    ensures forall p :: Occurs(standings, id, i, p) ==> !Paths.Less(Rank(standings[i], p), best)
  {
    forall p | Occurs(standings, id, i, p)
      ensures !Paths.Less(Rank(standings[i], p), best)
    {
      Paths.NotLessTransitive(Rank(standings[i], p), own, best);
    }
  }
}
