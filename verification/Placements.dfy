/** Canonical placements: where each transaction and each bundle item first occurs on the chain.
    The tables are kept up to date by small steps; a full recomputation would find the same places. */
module Placements {
  import opened Wrappers
  import opened Paths

  // A transaction occurs at its positions in the stored blocks. A bundle item occurs at its path in
  // every occurrence of its bundle above the start of the index.

  type Key = k: nat | k > 0 witness 1

  const PAGE: nat := 256

  /** One transaction position of a block whose metadata is stored. */
  datatype Occurrence = Occurrence(root: Key, height: nat, position: nat)

  datatype Location = Location(item: Key, root: Key, path: Path)

  /** A place on the chain; places compare like the paths height, position, item path. */
  datatype Place = Place(rank: Path, location: Location)

  function At(o: Occurrence): Path {
    [o.height, o.position]
  }

  function PlaceOf(o: Occurrence, l: Location): Place {
    Place(At(o) + l.path, l)
  }

  // ----- what the tables should say -----

  /** Every transaction stands at its first occurrence. */
  ghost predicate RootsRight(occurrences: seq<Occurrence>, roots: map<Key, Path>) {
    && (forall k :: k in roots ==> exists i :: 0 <= i < |occurrences| && occurrences[i].root == k && roots[k] == At(occurrences[i]))
    && (forall i :: 0 <= i < |occurrences| ==>
          occurrences[i].root in roots && !Less(At(occurrences[i]), roots[occurrences[i].root]))
  }

  /** An occurrence of a bundle is an occurrence of its items if it is above the start of the index. */
  predicate Counts(start: nat, o: Occurrence, l: Location) {
    o.root == l.root && o.height > start
  }

  /** The item occurs where its bundle does. */
  ghost predicate Hit(start: nat, occurrences: seq<Occurrence>, locations: seq<Location>, k: Key, i: int, j: int) {
    && 0 <= i < |occurrences| && 0 <= j < |locations|
    && Counts(start, occurrences[i], locations[j]) && locations[j].item == k
  }

  ghost predicate Genuine(start: nat, occurrences: seq<Occurrence>, locations: seq<Location>, k: Key, p: Place) {
    exists i, j :: Hit(start, occurrences, locations, k, i, j) && p == PlaceOf(occurrences[i], locations[j])
  }

  /** No occurrence of the item comes earlier. */
  ghost predicate Least(start: nat, occurrences: seq<Occurrence>, locations: seq<Location>, k: Key, p: Option<Place>) {
    forall i, j :: Hit(start, occurrences, locations, k, i, j) ==>
      p.Some? && !Less(PlaceOf(occurrences[i], locations[j]).rank, p.value.rank)
  }

  ghost function Get(items: map<Key, Place>, k: Key): Option<Place> {
    if k in items then Some(items[k]) else None
  }

  ghost predicate Sound(start: nat, occurrences: seq<Occurrence>, locations: seq<Location>, items: map<Key, Place>, k: Key) {
    k in items ==> Genuine(start, occurrences, locations, k, items[k])
  }

  /** An item stands at its first occurrence, if it has any. */
  ghost predicate ItemRight(start: nat, occurrences: seq<Occurrence>, locations: seq<Location>, items: map<Key, Place>, k: Key) {
    Sound(start, occurrences, locations, items, k) && Least(start, occurrences, locations, k, Get(items, k))
  }

  ghost predicate ItemsRight(start: nat, occurrences: seq<Occurrence>, locations: seq<Location>, items: map<Key, Place>) {
    forall k: Key :: ItemRight(start, occurrences, locations, items, k)
  }

  // ----- order -----

  lemma {:induction false} SuffixOrder(a: Path, b: Path, p: Path)
    requires |a| == |b| && !Less(a, b)
    ensures !Less(a + p, b + p)
    decreases |a|
  {
    if a == [] {
      assert a + p == p && b + p == p;
      Irreflexive(p);
    } else {
      if a[0] == b[0] {
        SuffixOrder(a[1..], b[1..], p);
      }
      assert (a + p)[1..] == a[1..] + p && (b + p)[1..] == b[1..] + p;
    }
  }

  /** Of two places with the same rank either will do; there is only one if places are unique. */
  function Earlier(best: Option<Place>, p: Place): (r: Option<Place>)
    ensures r.Some? && !Less(p.rank, r.value.rank)
    ensures best.Some? ==> !Less(best.value.rank, r.value.rank)
    ensures r == best || r == Some(p)
  {
    Irreflexive(p.rank);
    if best.Some? && !Less(p.rank, best.value.rank) then
      Irreflexive(best.value.rank);
      best
    else
      assert best.Some? ==> !Less(best.value.rank, p.rank) by {
        if best.Some? {
          NotBoth(p.rank, best.value.rank);
        }
      }
      Some(p)
  }

  /** Places are ordered by height, then by position in the block, then by the path in the bundle. */
  lemma PlacesInOrder(o: Occurrence, l: Location, p: Occurrence, m: Location)
    ensures Less(At(o), At(p)) <==> o.height < p.height || (o.height == p.height && o.position < p.position)
    ensures Less(PlaceOf(o, l).rank, PlaceOf(p, m).rank) <==>
              || o.height < p.height
              || (o.height == p.height && (o.position < p.position || (o.position == p.position && Less(l.path, m.path))))
  {
    TwoMore(o.height, o.position, l.path, p.height, p.position, m.path);
    TwoMore(o.height, o.position, [], p.height, p.position, []);
    assert At(o) + [] == At(o) && At(p) + [] == At(p);
  }

  lemma TwoMore(a: nat, b: nat, p: Path, c: nat, d: nat, q: Path)
    ensures Less([a, b] + p, [c, d] + q) <==> a < c || (a == c && (b < d || (b == d && Less(p, q))))
  {
    assert ([a, b] + p)[1..] == [b] + p && ([b] + p)[1..] == p;
    assert ([c, d] + q)[1..] == [d] + q && ([d] + q)[1..] == q;
  }

  // ----- growing tables -----

  lemma SoundGrows(start: nat, occurrences: seq<Occurrence>, locations: seq<Location>, items: map<Key, Place>, k: Key,
                   more: seq<Occurrence>, added: seq<Location>)
    requires Sound(start, occurrences, locations, items, k)
    ensures Sound(start, occurrences + more, locations + added, items, k)
  {
    if k in items {
      var i, j :| Hit(start, occurrences, locations, k, i, j) && items[k] == PlaceOf(occurrences[i], locations[j]);
      assert Hit(start, occurrences + more, locations + added, k, i, j);
    }
  }

  /** Taking over an earlier place, or a first one. */
  function Upsert(items: map<Key, Place>, k: Key, best: Option<Place>): map<Key, Place> {
    if best.None? || (k in items && !Less(best.value.rank, items[k].rank)) then items else items[k := best.value]
  }

  lemma UpsertRight(start: nat, occurrences: seq<Occurrence>, locations: seq<Location>, items: map<Key, Place>, k: Key,
                    best: Option<Place>)
    requires Sound(start, occurrences, locations, items, k)
    requires best.Some? ==> Genuine(start, occurrences, locations, k, best.value)
    requires Least(start, occurrences, locations, k, best)
    ensures ItemRight(start, occurrences, locations, Upsert(items, k, best), k)
  {
    var after := Upsert(items, k, best);
    forall i, j | Hit(start, occurrences, locations, k, i, j)
      ensures k in after && !Less(PlaceOf(occurrences[i], locations[j]).rank, after[k].rank)
    {
      if best.Some? && after != items[k := best.value] {
        NotLessTransitive(PlaceOf(occurrences[i], locations[j]).rank, best.value.rank, items[k].rank);
      }
    }
  }

  /** A right item whose occurrences have not grown stays right. */
  lemma RightKept(start: nat, occurrences: seq<Occurrence>, locations: seq<Location>, items: map<Key, Place>, k: Key,
                  more: seq<Occurrence>, added: seq<Location>, after: map<Key, Place>)
    requires ItemRight(start, occurrences, locations, items, k) && Get(after, k) == Get(items, k)
    requires forall i, j :: Hit(start, occurrences + more, locations + added, k, i, j) ==> i < |occurrences| && j < |locations|
    ensures ItemRight(start, occurrences + more, locations + added, after, k)
  {
    SoundGrows(start, occurrences, locations, items, k, more, added);
    forall i, j | Hit(start, occurrences + more, locations + added, k, i, j)
      ensures k in after && !Less(PlaceOf((occurrences + more)[i], (locations + added)[j]).rank, after[k].rank)
    {
      assert Hit(start, occurrences, locations, k, i, j);
    }
  }

  // ----- new locations of an item already placed -----

  /** Where a new location puts its item, going by the place of its root alone. */
  ghost predicate ViaRoot(roots: map<Key, Path>, added: seq<Location>, k: Key, j: int, rank: Path) {
    0 <= j < |added| && added[j].item == k && added[j].root in roots && rank == roots[added[j].root] + added[j].path
  }

  ghost predicate LeastViaRoot(roots: map<Key, Path>, added: seq<Location>, k: Key, best: Option<Place>) {
    && (best.Some? ==> exists j :: ViaRoot(roots, added, k, j, best.value.rank) && best.value.location == added[j])
    && (forall j, r :: ViaRoot(roots, added, k, j, r) ==> best.Some? && !Less(r, best.value.rank))
  }

  /** The place of the root stands for all its occurrences, unless it is the start of the index. */
  lemma ViaRootGenuine(start: nat, occurrences: seq<Occurrence>, roots: map<Key, Path>, locations: seq<Location>,
                       added: seq<Location>, k: Key, j: nat)
    requires RootsRight(occurrences, roots) && j < |added| && added[j].item == k && added[j].root in roots
    requires forall i :: 0 <= i < |occurrences| ==> occurrences[i].height >= start
    requires roots[added[j].root] != [] && roots[added[j].root][0] != start
    ensures Genuine(start, occurrences, locations + added, k, Place(roots[added[j].root] + added[j].path, added[j]))
  {
    var i :| 0 <= i < |occurrences| && occurrences[i].root == added[j].root && roots[added[j].root] == At(occurrences[i]);
    assert (locations + added)[|locations| + j] == added[j];
    assert Hit(start, occurrences, locations + added, k, i, |locations| + j);
  }

  lemma MergeRight(start: nat, occurrences: seq<Occurrence>, roots: map<Key, Path>, locations: seq<Location>,
                   added: seq<Location>, items: map<Key, Place>, k: Key, best: Option<Place>)
    requires RootsRight(occurrences, roots) && forall i :: 0 <= i < |occurrences| ==> occurrences[i].height >= start
    requires ItemRight(start, occurrences, locations, items, k) && k in items
    requires LeastViaRoot(roots, added, k, best)
    requires forall j :: 0 <= j < |added| && added[j].item == k && added[j].root in roots ==>
               roots[added[j].root] != [] && roots[added[j].root][0] != start
    ensures ItemRight(start, occurrences, locations + added, Upsert(items, k, best), k)
  {
    var after := Upsert(items, k, best);
    SoundGrows(start, occurrences, locations, items, k, [], added);
    assert occurrences + [] == occurrences;
    if best.Some? {
      var j :| ViaRoot(roots, added, k, j, best.value.rank) && best.value.location == added[j];
      ViaRootGenuine(start, occurrences, roots, locations, added, k, j);
    }
    var all := locations + added;
    forall i, j | Hit(start, occurrences, all, k, i, j)
      ensures !Less(PlaceOf(occurrences[i], all[j]).rank, after[k].rank)
    {
      MergeOne(start, occurrences, roots, locations, added, items, k, best, i, j);
    }
  }

  lemma MergeOne(start: nat, occurrences: seq<Occurrence>, roots: map<Key, Path>, locations: seq<Location>,
                 added: seq<Location>, items: map<Key, Place>, k: Key, best: Option<Place>, i: int, j: int)
    requires RootsRight(occurrences, roots)
    requires Least(start, occurrences, locations, k, Get(items, k)) && k in items
    requires LeastViaRoot(roots, added, k, best)
    requires Hit(start, occurrences, locations + added, k, i, j)
    ensures !Less(PlaceOf(occurrences[i], (locations + added)[j]).rank, Upsert(items, k, best)[k].rank)
  {
    var after := Upsert(items, k, best);
    var rank := PlaceOf(occurrences[i], (locations + added)[j]).rank;
    if best.Some? {
      NotBoth(best.value.rank, items[k].rank);
      Irreflexive(items[k].rank);
      Irreflexive(best.value.rank);
    } else {
      Irreflexive(items[k].rank);
    }
    if j < |locations| {
      assert Hit(start, occurrences, locations, k, i, j);
      NotLessTransitive(rank, items[k].rank, after[k].rank);
    } else {
      var l := added[j - |locations|];
      assert roots[l.root] == roots[occurrences[i].root];
      var m :| 0 <= m < |occurrences| && occurrences[m].root == l.root && roots[l.root] == At(occurrences[m]);
      SuffixOrder(At(occurrences[i]), roots[l.root], l.path);
      assert ViaRoot(roots, added, k, j - |locations|, roots[l.root] + l.path);
      NotLessTransitive(rank, roots[l.root] + l.path, best.value.rank);
      NotLessTransitive(rank, best.value.rank, after[k].rank);
    }
  }

  /** A root that stands at the start puts its items where they do not count. */
  lemma StartBreaks(start: nat, occurrences: seq<Occurrence>, roots: map<Key, Path>, locations: seq<Location>,
                    added: seq<Location>, items: map<Key, Place>, k: Key, best: Option<Place>, j: nat)
    requires RootsRight(occurrences, roots) && k in items && LeastViaRoot(roots, added, k, best)
    requires j < |added| && added[j].item == k && added[j].root in roots
    requires roots[added[j].root] != [] && roots[added[j].root][0] == start
    ensures !Sound(start, occurrences, locations + added, Upsert(items, k, best), k)
  {
    var after := Upsert(items, k, best)[k];
    var r := roots[added[j].root] + added[j].path;
    assert ViaRoot(roots, added, k, j, r);
    Irreflexive(best.value.rank);
    NotLessTransitive(r, best.value.rank, after.rank);
    GenuineAbove(start, occurrences, locations + added, k, after);
    assert after.rank != [] && after.rank[0] > start ==> Less(r, after.rank);
  }

  lemma GenuineAbove(start: nat, occurrences: seq<Occurrence>, locations: seq<Location>, k: Key, p: Place)
    ensures Genuine(start, occurrences, locations, k, p) ==> p.rank != [] && p.rank[0] > start
  {
  }

  // ----- a block's transactions -----

  /** All occurrences are those of stored blocks, none below the start of the index. */
  ghost predicate FromBlocks(start: nat, written: map<nat, seq<Key>>, occurrences: seq<Occurrence>) {
    forall i :: 0 <= i < |occurrences| ==>
      var o := occurrences[i];
      o.height >= start && o.height in written && o.position < |written[o.height]| && written[o.height][o.position] == o.root
  }

  lemma FromBlocksAppend(start: nat, written: map<nat, seq<Key>>, occurrences: seq<Occurrence>, height: nat, ids: seq<Key>,
                         i: nat)
    requires FromBlocks(start, written, occurrences) && height >= start && height in written && written[height] == ids && i < |ids|
    ensures FromBlocks(start, written, occurrences + [Occurrence(ids[i], height, i)])
  {
  }

  lemma FromBlocksMore(start: nat, written: map<nat, seq<Key>>, occurrences: seq<Occurrence>, height: nat, ids: seq<Key>)
    requires FromBlocks(start, written, occurrences) && height !in written
    ensures FromBlocks(start, written[height := ids], occurrences)
  {
  }

  /** The occurrences a block adds. */
  ghost function OccurrencesOf(height: nat, ids: seq<Key>): (r: seq<Occurrence>)
    ensures |r| == |ids|
    ensures forall i :: 0 <= i < |ids| ==> r[i] == Occurrence(ids[i], height, i)
  {
    if ids == [] then []
    else OccurrencesOf(height, ids[..|ids| - 1]) + [Occurrence(ids[|ids| - 1], height, |ids| - 1)]
  }

  function UpsertRoot(roots: map<Key, Path>, o: Occurrence): map<Key, Path> {
    if o.root in roots && !Less(At(o), roots[o.root]) then roots else roots[o.root := At(o)]
  }

  lemma UpsertRootRight(occurrences: seq<Occurrence>, roots: map<Key, Path>, o: Occurrence)
    requires RootsRight(occurrences, roots)
    ensures RootsRight(occurrences + [o], UpsertRoot(roots, o))
  {
    var all := occurrences + [o];
    var after := UpsertRoot(roots, o);
    Irreflexive(At(o));
    forall k | k in after
      ensures exists i :: 0 <= i < |all| && all[i].root == k && after[k] == At(all[i])
    {
      if k in roots && after[k] == roots[k] {
        var i :| 0 <= i < |occurrences| && occurrences[i].root == k && roots[k] == At(occurrences[i]);
        assert all[i] == occurrences[i];
      } else {
        assert all[|occurrences|] == o;
      }
    }
    forall i | 0 <= i < |all|
      ensures all[i].root in after && !Less(At(all[i]), after[all[i].root])
    {
      if i < |occurrences| && all[i].root == o.root && after != roots {
        var r := roots[o.root];
        NotBoth(At(o), r);
        NotLessTransitive(At(all[i]), r, At(o));
      }
    }
  }

  ghost predicate IsChild(locations: seq<Location>, ids: seq<Key>, k: Key) {
    exists j :: 0 <= j < |locations| && locations[j].item == k && locations[j].root in ids
  }

  /** A block occurrence reaches the children of its transactions and no other item. */
  lemma OnlyChildrenHit(start: nat, occurrences: seq<Occurrence>, locations: seq<Location>, height: nat, ids: seq<Key>, k: Key)
    ensures forall i, j :: Hit(start, occurrences + OccurrencesOf(height, ids), locations, k, i, j) && i >= |occurrences| ==>
              IsChild(locations, ids, k)
  {
    var all := occurrences + OccurrencesOf(height, ids);
    forall i, j | Hit(start, all, locations, k, i, j) && i >= |occurrences|
      ensures IsChild(locations, ids, k)
    {
      assert all[i] == OccurrencesOf(height, ids)[i - |occurrences|];
      assert locations[j].root in ids;
    }
  }

  lemma NoOccurrences(height: nat, ids: seq<Key>)
    ensures ids == [] ==> OccurrencesOf(height, ids) == []
  {
  }

  lemma OccurrencesGrow(height: nat, ids: seq<Key>, i: nat)
    requires i < |ids|
    ensures OccurrencesOf(height, ids[..i + 1]) == OccurrencesOf(height, ids[..i]) + [Occurrence(ids[i], height, i)]
  {
    assert ids[..i + 1][..i] == ids[..i];
  }

  /** Whether an item is right depends on its own place only. */
  lemma RightByPlace(start: nat, occurrences: seq<Occurrence>, locations: seq<Location>, items: map<Key, Place>,
                     after: map<Key, Place>, k: Key)
    requires Get(items, k) == Get(after, k)
    ensures ItemRight(start, occurrences, locations, items, k) ==> ItemRight(start, occurrences, locations, after, k)
    ensures Sound(start, occurrences, locations, items, k) ==> Sound(start, occurrences, locations, after, k)
  {
  }

  ghost function MaxItem(locations: seq<Location>): (m: nat)
    ensures forall j :: 0 <= j < |locations| ==> locations[j].item <= m
  {
    if locations == [] then 0
    else
      var rest := MaxItem(locations[..|locations| - 1]);
      if locations[|locations| - 1].item > rest then locations[|locations| - 1].item else rest
  }

  // ----- a bundle's locations -----

  predicate HasPath(locations: seq<Location>, root: Key, path: Path) {
    exists l :: l in locations && l.root == root && l.path == path
  }

  /** Of the incoming items of a bundle those whose path is not stored yet. */
  function Added(locations: seq<Location>, root: Key, incoming: seq<(Key, Path)>): seq<Location> {
    if incoming == [] then []
    else
      var before := Added(locations, root, incoming[..|incoming| - 1]);
      var (item, path) := incoming[|incoming| - 1];
      if HasPath(locations + before, root, path) then before else before + [Location(item, root, path)]
  }

  lemma {:induction false} AddedFrom(locations: seq<Location>, root: Key, incoming: seq<(Key, Path)>, j: nat)
    requires j < |Added(locations, root, incoming)|
    ensures var l := Added(locations, root, incoming)[j];
            l.root == root && exists i :: 0 <= i < |incoming| && incoming[i] == (l.item, l.path)
    decreases |incoming|
  {
    var n := |incoming| - 1;
    var before := Added(locations, root, incoming[..n]);
    if j < |before| {
      AddedFrom(locations, root, incoming[..n], j);
      var i :| 0 <= i < |incoming[..n]| && incoming[..n][i] == (before[j].item, before[j].path);
      assert incoming[i] == (before[j].item, before[j].path);
    } else {
      assert incoming[n] == (incoming[n].0, incoming[n].1);
    }
  }

  /** No bundle has two locations at one path. */
  ghost predicate PathsDistinct(locations: seq<Location>) {
    forall i, j :: 0 <= i < j < |locations| && locations[i].root == locations[j].root ==> locations[i].path != locations[j].path
  }

  /** The tables after a bundle's items came in: nothing old is gone, every path has its location, and a path that was
      free has that of the first item that came for it. Whatever is new came in. */
  ghost predicate TakenIn(before: seq<Location>, after: seq<Location>, root: Key, incoming: seq<(Key, Path)>) {
    && before <= after
    && (forall i :: 0 <= i < |incoming| ==> HasPath(after, root, incoming[i].1))
    && (forall i :: 0 <= i < |incoming| && FreeFor(before, root, incoming, i) ==>
          Location(incoming[i].0, root, incoming[i].1) in after)
    && (forall j :: |before| <= j < |after| ==>
          after[j].root == root && exists i :: 0 <= i < |incoming| && incoming[i] == (after[j].item, after[j].path))
  }

  /** The path of an incoming item is neither stored nor that of an earlier one. */
  ghost predicate FreeFor(before: seq<Location>, root: Key, incoming: seq<(Key, Path)>, i: nat)
    requires i < |incoming|
  {
    && (forall l :: l in before && l.root == root ==> l.path != incoming[i].1)
    && (forall j :: 0 <= j < i ==> incoming[j].1 != incoming[i].1)
  }

  lemma {:induction false} AddedTakenIn(before: seq<Location>, root: Key, incoming: seq<(Key, Path)>)
    requires PathsDistinct(before)
    ensures TakenIn(before, before + Added(before, root, incoming), root, incoming)
    ensures PathsDistinct(before + Added(before, root, incoming))
    decreases |incoming|
  {
    if incoming == [] {
      assert before + [] == before;
    } else {
      var n := |incoming| - 1;
      var front := incoming[..n];
      AddedTakenIn(before, root, front);
      AddedStep(before, root, incoming);
      var was, now := before + Added(before, root, front), before + Added(before, root, incoming);
      hide Added;
      OneMore(before, was, now, root, incoming);
    }
  }

  lemma AddedStep(before: seq<Location>, root: Key, incoming: seq<(Key, Path)>)
    requires incoming != []
    ensures var was, now := before + Added(before, root, incoming[..|incoming| - 1]), before + Added(before, root, incoming);
            var (item, path) := incoming[|incoming| - 1];
            now == if HasPath(was, root, path) then was else was + [Location(item, root, path)]
  {
  }

  lemma OneMore(before: seq<Location>, was: seq<Location>, now: seq<Location>, root: Key, incoming: seq<(Key, Path)>)
    requires incoming != [] && PathsDistinct(was)
    requires TakenIn(before, was, root, incoming[..|incoming| - 1])
    requires var (item, path) := incoming[|incoming| - 1];
             now == if HasPath(was, root, path) then was else was + [Location(item, root, path)]
    ensures TakenIn(before, now, root, incoming) && PathsDistinct(now)
  {
    var n := |incoming| - 1;
    var front := incoming[..n];
    var (item, path) := incoming[n];
    forall i | 0 <= i < |incoming|
      ensures HasPath(now, root, incoming[i].1)
      ensures FreeFor(before, root, incoming, i) ==> Location(incoming[i].0, root, incoming[i].1) in now
    {
      if i < n {
        assert front[i] == incoming[i];
        assert HasPath(was, root, front[i].1);
        assert FreeFor(before, root, incoming, i) ==> FreeFor(before, root, front, i);
      } else {
        LastFree(before, was, root, incoming);
        assert !HasPath(was, root, path) ==> now[|was|] == Location(item, root, path);
      }
    }
    forall j | |before| <= j < |now|
      ensures now[j].root == root && exists i :: 0 <= i < |incoming| && incoming[i] == (now[j].item, now[j].path)
    {
      if j < |was| {
        var i :| 0 <= i < |front| && front[i] == (was[j].item, was[j].path);
        assert incoming[i] == (now[j].item, now[j].path);
      } else {
        assert incoming[n] == (now[j].item, now[j].path);
      }
    }
  }

  /** A path that is free for the last item has no location yet. */
  lemma LastFree(before: seq<Location>, was: seq<Location>, root: Key, incoming: seq<(Key, Path)>)
    requires incoming != [] && TakenIn(before, was, root, incoming[..|incoming| - 1])
    ensures FreeFor(before, root, incoming, |incoming| - 1) ==> !HasPath(was, root, incoming[|incoming| - 1].1)
  {
    var n := |incoming| - 1;
    if HasPath(was, root, incoming[n].1) {
      var l :| l in was && l.root == root && l.path == incoming[n].1;
      var j :| 0 <= j < |was| && was[j] == l;
      if j < |before| {
        assert l in before;
      } else {
        var i :| 0 <= i < |incoming[..n]| && incoming[..n][i] == (l.item, l.path);
        assert incoming[i].1 == incoming[n].1;
      }
    }
  }

  /** None of an item's new locations is in a bundle that stands at the start of the index. */
  ghost predicate Clear(start: nat, roots: map<Key, Path>, added: seq<Location>, k: Key) {
    forall j :: 0 <= j < |added| && added[j].item == k && added[j].root in roots ==>
      roots[added[j].root] != [] && roots[added[j].root][0] != start
  }

  lemma RootRanks(occurrences: seq<Occurrence>, roots: map<Key, Path>, k: Key)
    requires RootsRight(occurrences, roots) && k in roots
    ensures |roots[k]| == 2
  {
  }

  /** What the refresh does to an item placed before. */
  lemma PlacedBefore(start: nat, written: map<nat, seq<Key>>, occurrences: seq<Occurrence>, roots: map<Key, Path>,
                     locations: seq<Location>, added: seq<Location>, items: map<Key, Place>, k: Key, best: Option<Place>)
    requires RootsRight(occurrences, roots) && FromBlocks(start, written, occurrences)
    requires ItemRight(start, occurrences, locations, items, k) && k in items
    requires LeastViaRoot(roots, added, k, best)
    ensures ItemRight(start, occurrences, locations + added, Upsert(items, k, best), k) <==> Clear(start, roots, added, k)
  {
    if Clear(start, roots, added, k) {
      MergeRight(start, occurrences, roots, locations, added, items, k, best);
    } else {
      var j :| 0 <= j < |added| && added[j].item == k && added[j].root in roots
        && !(roots[added[j].root] != [] && roots[added[j].root][0] != start);
      RootRanks(occurrences, roots, added[j].root);
      StartBreaks(start, occurrences, roots, locations, added, items, k, best, j);
    }
  }

  /** The tables that hold transactions and bundle items. */
  class PlacementTables {
    const start: nat
    var written: map<nat, seq<Key>>
    var occurrences: seq<Occurrence>
    var locations: seq<Location>
    var roots: map<Key, Path>
    var items: map<Key, Place>

    ghost predicate Valid()
      reads this
    {
      RootsRight(occurrences, roots) && FromBlocks(start, written, occurrences) && PathsDistinct(locations)
    }

    constructor (start: nat)
      ensures Valid() && this.start == start && occurrences == [] && locations == [] && written == map[]
      ensures ItemsRight(start, occurrences, locations, items)
    {
      this.start := start;
      written, occurrences, locations, roots, items := map[], [], [], map[], map[];
    }

    /** The first occurrence of an item over all its locations. */
    method FirstOccurrence(k: Key) returns (best: Option<Place>)
      ensures best.Some? ==> Genuine(start, occurrences, locations, k, best.value)
      ensures Least(start, occurrences, locations, k, best)
    {
      best := None;
      var j := 0;
      while j < |locations|
        invariant 0 <= j <= |locations|
        invariant best.Some? ==> Genuine(start, occurrences, locations, k, best.value)
        invariant Least(start, occurrences, locations[..j], k, best)
      {
        var l := locations[j];
        if l.item == k {
          var before := best;
          var i := 0;
          if before.Some? {
            Irreflexive(before.value.rank);
          }
          while i < |occurrences|
            invariant 0 <= i <= |occurrences|
            invariant best.Some? ==> Genuine(start, occurrences, locations, k, best.value)
            invariant before.Some? ==> best.Some? && !Less(before.value.rank, best.value.rank)
            invariant forall m :: 0 <= m < i && Counts(start, occurrences[m], l) ==>
                        best.Some? && !Less(PlaceOf(occurrences[m], l).rank, best.value.rank)
          {
            if Counts(start, occurrences[i], l) {
              var next := Earlier(best, PlaceOf(occurrences[i], l));
              ghost var was := best;
              forall m | 0 <= m < i && Counts(start, occurrences[m], l)
                ensures !Less(PlaceOf(occurrences[m], l).rank, next.value.rank)
              {
                NotLessTransitive(PlaceOf(occurrences[m], l).rank, was.value.rank, next.value.rank);
              }
              if before.Some? {
                NotLessTransitive(before.value.rank, was.value.rank, next.value.rank);
              }
              assert Hit(start, occurrences, locations, k, i, j);
              best := next;
            }
            i := i + 1;
          }
          LeastExtends(start, occurrences, locations, k, j, before, best);
        } else {
          LeastSkips(start, occurrences, locations, k, j, best);
        }
        j := j + 1;
      }
      assert locations[..j] == locations;
    }

    /** Give an item the first of all its occurrences. */
    method RefreshItem(k: Key)
      modifies this`items
      ensures old(Sound(start, occurrences, locations, items, k)) ==> ItemRight(start, occurrences, locations, items, k)
      ensures forall o: Key :: o != k ==> Get(items, o) == old(Get(items, o))
      ensures k in items ==> k in old(items) || Genuine(start, occurrences, locations, k, items[k])
      ensures old(items).Keys <= items.Keys
    {
      var best := FirstOccurrence(k);
      if Sound(start, occurrences, locations, items, k) {
        UpsertRight(start, occurrences, locations, items, k, best);
      }
      items := Upsert(items, k, best);
    }

    /** The children of a block's transactions above a key: the next ones in order, at most a page of them. */
    method NextPage(ids: seq<Key>, after: nat) returns (page: seq<Key>, last: nat)
      ensures forall i :: 0 <= i < |page| ==> IsChild(locations, ids, page[i])
      ensures forall k: Key :: IsChild(locations, ids, k) && after < k <= last ==> k in page
      ensures page == [] ==> forall k: Key :: IsChild(locations, ids, k) ==> k <= after
      ensures page != [] ==> after < last == page[|page| - 1]
    {
      page, last := [], after;
      while |page| < PAGE
        invariant |page| <= PAGE && last >= after
        invariant forall i :: 0 <= i < |page| ==> IsChild(locations, ids, page[i])
        invariant forall k: Key :: IsChild(locations, ids, k) && after < k <= last ==> k in page
        invariant if page == [] then last == after else after < last == page[|page| - 1]
      {
        var next := NextChild(ids, last);
        if next.None? {
          break;
        }
        page := page + [next.value];
        last := next.value;
      }
    }

    method NextChild(ids: seq<Key>, after: nat) returns (next: Option<Key>)
      ensures next.Some? ==> IsChild(locations, ids, next.value) && next.value > after
      ensures forall k: Key :: IsChild(locations, ids, k) && k > after ==> next.Some? && next.value <= k
    {
      next := None;
      var j := 0;
      while j < |locations|
        invariant 0 <= j <= |locations|
        invariant next.Some? ==> IsChild(locations, ids, next.value) && next.value > after
        invariant forall m :: 0 <= m < j && locations[m].root in ids && locations[m].item > after ==>
                    next.Some? && next.value <= locations[m].item
      {
        var l := locations[j];
        if l.root in ids && l.item > after && (next.None? || l.item < next.value) {
          next := Some(l.item);
        }
        j := j + 1;
      }
    }

    /** Store the transactions of a canonical block: their own places, then those of all items under them.
        Refused only if the block is stored with other transactions. */
    method WriteBlock(height: nat, ids: seq<Key>) returns (ok: bool)
      requires Valid() && ItemsRight(start, occurrences, locations, items) && height >= start
      modifies this
      ensures ok <==> height !in old(written) || old(written)[height] == ids
      ensures locations == old(locations)
      ensures written == if ok then old(written)[height := ids] else old(written)
      ensures occurrences == old(occurrences) + (if height in old(written) then [] else OccurrencesOf(height, ids))
      ensures Valid() && ItemsRight(start, occurrences, locations, items)
    {
      if height in written && written[height] != ids {
        assert occurrences + [] == occurrences;
        return false;
      }
      ok := true;
      if height in written {
        assert occurrences + [] == occurrences;
        return;
      }
      ghost var before := occurrences;
      AddOccurrences(height, ids);
      RefreshChildren(height, ids, before);
    }

    method AddOccurrences(height: nat, ids: seq<Key>)
      requires Valid() && height >= start && height !in written
      modifies this`written, this`occurrences, this`roots
      ensures Valid() && occurrences == old(occurrences) + OccurrencesOf(height, ids) && written == old(written)[height := ids]
    {
      hide RootsRight, UpsertRoot, FromBlocks, OccurrencesOf;
      FromBlocksMore(start, written, occurrences, height, ids);
      written := written[height := ids];
      var i := 0;
      NoOccurrences(height, ids[..0]);
      assert occurrences + [] == occurrences;
      while i < |ids|
        invariant 0 <= i <= |ids| && Valid() && written == old(written)[height := ids]
        invariant occurrences == old(occurrences) + OccurrencesOf(height, ids[..i])
      {
        var o := Occurrence(ids[i], height, i);
        UpsertRootRight(occurrences, roots, o);
        FromBlocksAppend(start, written, occurrences, height, ids, i);
        OccurrencesGrow(height, ids, i);
        assert old(occurrences) + OccurrencesOf(height, ids[..i]) + [o]
            == old(occurrences) + (OccurrencesOf(height, ids[..i]) + [o]);
        occurrences := occurrences + [o];
        roots := UpsertRoot(roots, o);
        i := i + 1;
      }
      assert ids[..i] == ids;
    }

    /** Page through the items under a block's transactions and refresh each. */
    method RefreshChildren(height: nat, ids: seq<Key>, ghost before: seq<Occurrence>)
      requires occurrences == before + OccurrencesOf(height, ids)
      requires ItemsRight(start, before, locations, items)
      modifies this`items
      ensures ItemsRight(start, occurrences, locations, items)
    {
      ghost var placed := items;
      var after := 0;
      var more := true;
      hide Least;
      forall k: Key
        ensures Sound(start, occurrences, locations, items, k)
      {
        assert ItemRight(start, before, locations, items, k) && locations + [] == locations;
        SoundGrows(start, before, locations, items, k, OccurrencesOf(height, ids), []);
      }
      hide Sound, ItemRight, Get;
      while more
        invariant forall k: Key :: IsChild(locations, ids, k) && k <= after ==> ItemRight(start, occurrences, locations, items, k)
        invariant forall k: Key :: Sound(start, occurrences, locations, items, k)
        invariant forall k: Key :: !IsChild(locations, ids, k) ==> Get(items, k) == Get(placed, k)
        invariant !more ==> forall k: Key :: IsChild(locations, ids, k) ==> k <= after
        invariant after <= MaxItem(locations)
        decreases more, MaxItem(locations) - after
      {
        var page, last := NextPage(ids, after);
        if page == [] {
          more := false;
        } else {
          ghost var were := items;
          RefreshPage(page);
          forall k: Key | k !in page
            ensures ItemRight(start, occurrences, locations, were, k) ==> ItemRight(start, occurrences, locations, items, k)
          {
            RightByPlace(start, occurrences, locations, were, items, k);
          }
          after := last;
        }
      }
      forall k: Key
        ensures ItemRight(start, occurrences, locations, items, k)
      {
        if !IsChild(locations, ids, k) {
          OnlyChildrenHit(start, before, locations, height, ids, k);
          assert locations + [] == locations;
          RightKept(start, before, locations, placed, k, OccurrencesOf(height, ids), [], items);
        }
      }
    }

    method RefreshPage(page: seq<Key>)
      modifies this`items
      ensures forall k: Key :: old(Sound(start, occurrences, locations, items, k)) ==> Sound(start, occurrences, locations, items, k)
      ensures forall k: Key :: k in page && old(Sound(start, occurrences, locations, items, k)) ==>
                ItemRight(start, occurrences, locations, items, k)
      ensures forall k: Key :: k !in page ==> Get(items, k) == old(Get(items, k))
    {
      var i := 0;
      while i < |page|
        invariant 0 <= i <= |page|
        invariant forall k: Key :: old(Sound(start, occurrences, locations, items, k)) ==> Sound(start, occurrences, locations, items, k)
        invariant forall k: Key :: k in page[..i] && old(Sound(start, occurrences, locations, items, k)) ==>
                    ItemRight(start, occurrences, locations, items, k)
        invariant forall k: Key :: k !in page[..i] ==> Get(items, k) == old(Get(items, k))
      {
        RefreshItem(page[i]);
        assert page[..i + 1] == page[..i] + [page[i]];
        i := i + 1;
      }
      assert page[..i] == page;
    }

    // ----- bundles -----

    /** The first of an item's new locations, by the places of their roots. */
    method FirstViaRoot(k: Key, added: seq<Location>) returns (best: Option<Place>)
      ensures LeastViaRoot(roots, added, k, best)
    {
      best := None;
      var j := 0;
      while j < |added|
        invariant 0 <= j <= |added|
        invariant best.Some? ==> exists n :: ViaRoot(roots, added, k, n, best.value.rank) && best.value.location == added[n]
        invariant forall n, r :: ViaRoot(roots, added, k, n, r) && n < j ==> best.Some? && !Less(r, best.value.rank)
      {
        var l := added[j];
        if l.item == k && l.root in roots {
          var was := best;
          best := Earlier(best, Place(roots[l.root] + l.path, l));
          assert ViaRoot(roots, added, k, j, roots[l.root] + l.path);
          forall n, r | ViaRoot(roots, added, k, n, r) && n < j
            ensures !Less(r, best.value.rank)
          {
            NotLessTransitive(r, was.value.rank, best.value.rank);
          }
        }
        j := j + 1;
      }
    }

    /** Items placed before look at their new locations only; the others at all their occurrences. */
    method RefreshBundle(requested: set<Key>, added: seq<Location>, ghost before: seq<Location>)
      requires Valid() && locations == before + added && ItemsRight(start, occurrences, before, items)
      modifies this`items
      ensures forall k: Key :: k !in requested ==> Get(items, k) == old(Get(items, k))
      ensures forall k: Key :: k in requested ==>
                (ItemRight(start, occurrences, locations, items, k) <==> k !in old(items) || Clear(start, roots, added, k))
    {
      hide ItemRight, Clear, RootsRight, FromBlocks, LeastViaRoot, Least;
      var todo := requested;
      while todo != {}
        invariant todo <= requested
        invariant forall k: Key :: k in todo || k !in requested ==> Get(items, k) == old(Get(items, k))
        invariant forall k: Key :: k in requested - todo ==>
                    (ItemRight(start, occurrences, locations, items, k) <==> k !in old(items) || Clear(start, roots, added, k))
        decreases |todo|
      {
        var k :| k in todo;
        ghost var were := items;
        assert Get(items, k) == old(Get(items, k));
        assert ItemRight(start, occurrences, before, old(items), k);
        RightByPlace(start, occurrences, before, old(items), items, k);
        if k in items {
          var best := FirstViaRoot(k, added);
          PlacedBefore(start, written, occurrences, roots, before, added, items, k, best);
          items := Upsert(items, k, best);
        } else {
          var best := FirstOccurrence(k);
          UpsertRight(start, occurrences, locations, items, k, best);
          items := Upsert(items, k, best);
        }
        forall o: Key | o != k
          ensures Get(items, o) == Get(were, o)
          ensures ItemRight(start, occurrences, locations, were, o) <==> ItemRight(start, occurrences, locations, items, o)
        {
          RightByPlace(start, occurrences, locations, were, items, o);
          RightByPlace(start, occurrences, locations, items, were, o);
        }
        todo := todo - {k};
      }
    }

    /** Ask where a bundle stands, as a commit does before it waits for its lock. Only a bundle all of whose occurrences
        lie above the start of the index is found. */
    method LookUp(root: Key) returns (height: Option<nat>)
      requires Valid()
      ensures height.Some? <==> Stands(start, occurrences, root)
      ensures height.Some? ==> FirstHeight(occurrences, root, height.value)
    {
      StandsByPlace(start, occurrences, roots, root);
      if root in roots && roots[root][0] > start {
        height := Some(roots[root][0]);
      } else {
        height := None;
      }
    }

    /** Store items found in a bundle, from the moment the lock is held. A bundle seen at or below the checkpoint is
        not looked up again. If it meanwhile came to stand at the start of the index, items placed before are
        misplaced, and exactly those that gain a location in it. */
    method CommitLocked(root: Key, incoming: seq<(Key, Path)>, seen: nat, checkpoint: nat) returns (ok: bool)
      requires Valid() && ItemsRight(start, occurrences, locations, items) && root in roots
      modifies this
      ensures Valid() && occurrences == old(occurrences) && roots == old(roots) && written == old(written)
      ensures ok <==> seen <= checkpoint || Stands(start, occurrences, root)
      ensures !ok ==> locations == old(locations) && items == old(items)
      ensures ok ==> TakenIn(old(locations), locations, root, incoming)
      ensures ItemsRight(start, occurrences, locations, items) <==>
                !ok || Stands(start, occurrences, root) || !AnyPlaced(locations[|old(locations)|..], old(items))
    {
      StandsByPlace(start, occurrences, roots, root);
      if seen > checkpoint {
        var again := LookUp(root);
        if again.None? {
          return false;
        }
      }
      ok := true;
      var added := Added(locations, root, incoming);
      ghost var before := locations;
      ghost var placed := items;
      var requested := set i | 0 <= i < |incoming| :: incoming[i].0;
      AddedTakenIn(locations, root, incoming);
      locations := locations + added;
      assert locations[|before|..] == added;
      RefreshBundle(requested, added, before);
      CommitIff(start, written, occurrences, roots, before, added, placed, items, requested, root, incoming);
    }

    /** Store items found in a bundle while no block is written. Refused exactly if the bundle does not stand above the
        start of the index. Afterwards every item stands at its first occurrence. */
    method CommitLocations(root: Key, incoming: seq<(Key, Path)>, checkpoint: nat) returns (ok: bool)
      requires Valid() && ItemsRight(start, occurrences, locations, items)
      modifies this
      ensures Valid() && occurrences == old(occurrences) && roots == old(roots) && written == old(written)
      ensures ok <==> Stands(start, occurrences, root)
      ensures !ok ==> locations == old(locations) && items == old(items)
      ensures ok ==> TakenIn(old(locations), locations, root, incoming)
      ensures ItemsRight(start, occurrences, locations, items)
    {
      StandsByPlace(start, occurrences, roots, root);
      var seen := LookUp(root);
      if seen.None? {
        return false;
      }
      ok := CommitLocked(root, incoming, seen.value, checkpoint);
    }
  }

  // ----- where a bundle stands -----

  /** The bundle occurs, and nowhere at the start of the index or below. */
  ghost predicate Stands(start: nat, occurrences: seq<Occurrence>, root: Key) {
    && (exists i :: 0 <= i < |occurrences| && occurrences[i].root == root)
    && (forall i :: 0 <= i < |occurrences| && occurrences[i].root == root ==> occurrences[i].height > start)
  }

  ghost predicate FirstHeight(occurrences: seq<Occurrence>, root: Key, height: nat) {
    && (exists i :: 0 <= i < |occurrences| && occurrences[i].root == root && occurrences[i].height == height)
    && (forall i :: 0 <= i < |occurrences| && occurrences[i].root == root ==> height <= occurrences[i].height)
  }

  /** Some new location is that of an item placed before. */
  ghost predicate AnyPlaced(added: seq<Location>, placed: map<Key, Place>) {
    exists j :: 0 <= j < |added| && added[j].item in placed
  }

  /** The stored place of a bundle tells whether it stands, and where first. */
  lemma StandsByPlace(start: nat, occurrences: seq<Occurrence>, roots: map<Key, Path>, root: Key)
    requires RootsRight(occurrences, roots)
    ensures Stands(start, occurrences, root) <==> root in roots && roots[root] != [] && roots[root][0] > start
    ensures root in roots ==> roots[root] != [] && FirstHeight(occurrences, root, roots[root][0])
  {
    if root in roots {
      var i :| 0 <= i < |occurrences| && occurrences[i].root == root && roots[root] == At(occurrences[i]);
      forall m | 0 <= m < |occurrences| && occurrences[m].root == root
        ensures roots[root][0] <= occurrences[m].height
      {
        assert !Less(At(occurrences[m]), roots[root]);
      }
    }
  }

  /** Blocks written above the start do not move a bundle there. */
  lemma StandsKept(start: nat, occurrences: seq<Occurrence>, root: Key, height: nat, ids: seq<Key>)
    requires Stands(start, occurrences, root)
    ensures Stands(start, occurrences + OccurrencesOf(height, ids), root) <==> height > start || root !in ids
  {
    var more := OccurrencesOf(height, ids);
    var all := occurrences + more;
    var i :| 0 <= i < |occurrences| && occurrences[i].root == root;
    assert all[i] == occurrences[i];
    if root in ids {
      var p :| 0 <= p < |ids| && ids[p] == root;
      assert all[|occurrences| + p] == more[p];
    }
  }

  lemma CommitIff(start: nat, written: map<nat, seq<Key>>, occurrences: seq<Occurrence>, roots: map<Key, Path>,
                  before: seq<Location>, added: seq<Location>, placed: map<Key, Place>, items: map<Key, Place>,
                  requested: set<Key>, root: Key, incoming: seq<(Key, Path)>)
    requires RootsRight(occurrences, roots) && FromBlocks(start, written, occurrences) && root in roots
    requires added == Added(before, root, incoming) && requested == set i | 0 <= i < |incoming| :: incoming[i].0
    requires ItemsRight(start, occurrences, before, placed)
    requires forall k: Key :: k !in requested ==> Get(items, k) == Get(placed, k)
    requires forall k: Key :: k in requested ==>
               (ItemRight(start, occurrences, before + added, items, k) <==> k !in placed || Clear(start, roots, added, k))
    ensures ItemsRight(start, occurrences, before + added, items) <==>
              Stands(start, occurrences, root) || !AnyPlaced(added, placed)
  {
    StandsByPlace(start, occurrences, roots, root);
    hide ItemRight, Stands;
    RootRanks(occurrences, roots, root);
    RootAboveStart(start, written, occurrences, roots, root);
    forall j | 0 <= j < |added|
      ensures added[j].root == root && added[j].item in requested
    {
      AddedFrom(before, root, incoming, j);
    }
    forall k: Key | k !in requested
      ensures ItemRight(start, occurrences, before + added, items, k)
    {
      assert ItemRight(start, occurrences, before, placed, k);
      NotRequested(start, occurrences, before, added, placed, items, k);
    }
    if j :| 0 <= j < |added| && added[j].item in placed {
      assert roots[root][0] > start <==> Clear(start, roots, added, added[j].item);
    }
  }

  lemma NotRequested(start: nat, occurrences: seq<Occurrence>, before: seq<Location>, added: seq<Location>,
                     placed: map<Key, Place>, items: map<Key, Place>, k: Key)
    requires ItemRight(start, occurrences, before, placed, k) && Get(items, k) == Get(placed, k)
    requires forall j :: 0 <= j < |added| ==> added[j].item != k
    ensures ItemRight(start, occurrences, before + added, items, k)
  {
    assert occurrences + [] == occurrences;
    RightKept(start, occurrences, before, placed, k, [], added, items);
  }

  lemma RootAboveStart(start: nat, written: map<nat, seq<Key>>, occurrences: seq<Occurrence>, roots: map<Key, Path>, root: Key)
    requires RootsRight(occurrences, roots) && FromBlocks(start, written, occurrences) && root in roots
    ensures roots[root] != [] && roots[root][0] >= start
  {
  }

  lemma LeastExtends(start: nat, occurrences: seq<Occurrence>, locations: seq<Location>, k: Key, j: nat,
                     before: Option<Place>, best: Option<Place>)
    requires j < |locations| && Least(start, occurrences, locations[..j], k, before)
    requires before.Some? ==> best.Some? && !Less(before.value.rank, best.value.rank)
    requires forall m :: 0 <= m < |occurrences| && Counts(start, occurrences[m], locations[j]) ==>
               best.Some? && !Less(PlaceOf(occurrences[m], locations[j]).rank, best.value.rank)
    ensures Least(start, occurrences, locations[..j + 1], k, best)
  {
    var upTo := locations[..j + 1];
    forall i, n | Hit(start, occurrences, upTo, k, i, n)
      ensures best.Some? && !Less(PlaceOf(occurrences[i], upTo[n]).rank, best.value.rank)
    {
      if n < j {
        assert Hit(start, occurrences, locations[..j], k, i, n);
        NotLessTransitive(PlaceOf(occurrences[i], locations[n]).rank, before.value.rank, best.value.rank);
      }
    }
  }

  lemma LeastSkips(start: nat, occurrences: seq<Occurrence>, locations: seq<Location>, k: Key, j: nat, best: Option<Place>)
    requires j < |locations| && locations[j].item != k && Least(start, occurrences, locations[..j], k, best)
    ensures Least(start, occurrences, locations[..j + 1], k, best)
  {
    var upTo := locations[..j + 1];
    forall i, n | Hit(start, occurrences, upTo, k, i, n)
      ensures best.Some? && !Less(PlaceOf(occurrences[i], upTo[n]).rank, best.value.rank)
    {
      assert Hit(start, occurrences, locations[..j], k, i, n);
    }
  }

  // ----- whole runs -----

  datatype Change = Block(height: nat, ids: seq<Key>) | Bundle(root: Key, incoming: seq<(Key, Path)>, checkpoint: nat)

  lemma Trichotomy(a: Path, b: Path)
    requires !Less(a, b) && !Less(b, a)
    ensures a == b
  {
    Total(a, b);
  }

  /** A place that was kept up to date step by step is the place a full recomputation finds. */
  lemma IncrementalIsFull(start: nat, occurrences: seq<Occurrence>, locations: seq<Location>, items: map<Key, Place>,
                          k: Key, full: Option<Place>)
    requires ItemRight(start, occurrences, locations, items, k)
    requires full.Some? ==> Genuine(start, occurrences, locations, k, full.value)
    requires Least(start, occurrences, locations, k, full)
    ensures full.Some? <==> k in items
    ensures full.Some? ==> full.value.rank == items[k].rank
  {
    if full.Some? {
      var i, j :| Hit(start, occurrences, locations, k, i, j) && full.value == PlaceOf(occurrences[i], locations[j]);
    }
    if k in items {
      var i, j :| Hit(start, occurrences, locations, k, i, j) && items[k] == PlaceOf(occurrences[i], locations[j]);
      Trichotomy(full.value.rank, items[k].rank);
    }
  }

  /** However block writes and bundle commits alternate, the block at the start of the index included, every place
      stays the first. */
  method Replay(start: nat, changes: seq<Change>) returns (tables: PlacementTables)
    requires forall c :: 0 <= c < |changes| && changes[c].Block? ==> changes[c].height >= start
    ensures tables.Valid() && tables.start == start
    ensures ItemsRight(start, tables.occurrences, tables.locations, tables.items)
  {
    hide ItemsRight, RootsRight;
    tables := new PlacementTables(start);
    var c := 0;
    while c < |changes|
      invariant 0 <= c <= |changes| && fresh(tables) && tables.start == start && tables.Valid()
      invariant ItemsRight(tables.start, tables.occurrences, tables.locations, tables.items)
      decreases |changes| - c
    {
      match changes[c] {
        case Block(height, ids) =>
          var ok := tables.WriteBlock(height, ids);
        case Bundle(root, incoming, checkpoint) =>
          var ok := tables.CommitLocations(root, incoming, checkpoint);
      }
      c := c + 1;
    }
  }

  datatype Step =
    | Write(height: nat, ids: seq<Key>)
    | Look(task: nat, root: Key)
    | Commit(task: nat, incoming: seq<(Key, Path)>, checkpoint: nat)

  /** Block writes, lookups and locked commits of any number of tasks in any order: every place stays the first as long
      as no bundle looked up before is among the transactions of the block at the start of the index. */
  method Interleave(start: nat, steps: seq<Step>) returns (tables: PlacementTables)
    requires forall c :: 0 <= c < |steps| && steps[c].Write? ==> steps[c].height >= start
    requires forall i, j :: 0 <= i < j < |steps| && steps[i].Look? && steps[j].Write? && steps[j].height == start ==>
               steps[i].root !in steps[j].ids
    ensures tables.Valid() && tables.start == start
    ensures ItemsRight(start, tables.occurrences, tables.locations, tables.items)
  {
    hide ItemsRight, RootsRight, FromBlocks, Stands, Added, AnyPlaced, FirstHeight;
    tables := new PlacementTables(start);
    var looked: map<nat, (Key, nat)> := map[];
    var c := 0;
    while c < |steps|
      invariant 0 <= c <= |steps| && fresh(tables) && tables.start == start && tables.Valid()
      invariant ItemsRight(tables.start, tables.occurrences, tables.locations, tables.items)
      invariant forall t :: t in looked ==> Stands(start, tables.occurrences, looked[t].0)
      invariant forall t :: t in looked ==> exists i :: 0 <= i < c && steps[i] == Look(t, looked[t].0)
      decreases |steps| - c
    {
      match steps[c] {
        case Write(height, ids) =>
          ghost var before := tables.occurrences;
          var ok := tables.WriteBlock(height, ids);
          forall t | t in looked
            ensures Stands(start, tables.occurrences, looked[t].0)
          {
            var i :| 0 <= i < c && steps[i] == Look(t, looked[t].0);
            StandsKept(start, before, looked[t].0, height, ids);
            assert before + [] == before;
          }
        case Look(task, root) =>
          var seen := tables.LookUp(root);
          looked := if seen.Some? then looked[task := (root, seen.value)] else looked - {task};
        case Commit(task, incoming, checkpoint) =>
          if task in looked {
            StandsByPlace(start, tables.occurrences, tables.roots, looked[task].0);
            var ok := tables.CommitLocked(looked[task].0, incoming, looked[task].1, checkpoint);
          }
      }
      c := c + 1;
    }
  }

  /** The block at the start of the index may be written while a commit waits for its lock. The bundle, seen at a
      stable height, is not looked up again, and an item placed before moves to an occurrence that does not count. */
  method StartBlockMisleads() returns (tables: PlacementTables)
    ensures tables.Valid()
    ensures !ItemsRight(tables.start, tables.occurrences, tables.locations, tables.items)
  {
    hide ItemsRight, RootsRight, FromBlocks, Added, FirstHeight, Stands;
    tables := new PlacementTables(0);
    var ok := tables.WriteBlock(5, [1]);
    OneBlock(tables.occurrences);
    NoItems(tables.occurrences, tables.locations, tables.items);
    ok := tables.CommitLocations(1, [(7, [0])], 5);
    OneTaken([], tables.locations, [0]);
    assert tables.locations == [Location(7, 1, [0])];
    var seen := tables.LookUp(1);
    SeenAtFive(tables.occurrences, seen.value);
    ok := tables.WriteBlock(0, [1]);
    TwoBlocks(tables.occurrences, tables.roots);
    SeventhPlaced(tables.occurrences, tables.locations, tables.items);
    ghost var before := tables.locations;
    ok := tables.CommitLocked(1, [(7, [1])], seen.value, 5);
    OneTaken(before, tables.locations, [1]);
    assert tables.locations[|before|..][0].item == 7;
  }

  lemma OneBlock(occurrences: seq<Occurrence>)
    requires occurrences == [] + OccurrencesOf(5, [1])
    ensures occurrences == [Occurrence(1, 5, 0)] && Stands(0, occurrences, 1)
  {
    assert occurrences[0] == Occurrence(1, 5, 0);
  }

  lemma SeenAtFive(occurrences: seq<Occurrence>, height: nat)
    requires occurrences == [Occurrence(1, 5, 0)] && FirstHeight(occurrences, 1, height)
    ensures height == 5
  {
  }

  lemma TwoBlocks(occurrences: seq<Occurrence>, roots: map<Key, Path>)
    requires RootsRight(occurrences, roots) && occurrences == [Occurrence(1, 5, 0)] + OccurrencesOf(0, [1])
    ensures occurrences == [Occurrence(1, 5, 0), Occurrence(1, 0, 0)]
    ensures 1 in roots && !Stands(0, occurrences, 1)
  {
    assert occurrences[0] == Occurrence(1, 5, 0) && occurrences[1] == Occurrence(1, 0, 0);
  }

  lemma NoItems(occurrences: seq<Occurrence>, locations: seq<Location>, items: map<Key, Place>)
    requires ItemsRight(0, occurrences, locations, items) && locations == []
    ensures items == map[]
  {
    forall k: Key
      ensures k !in items
    {
      assert ItemRight(0, occurrences, locations, items, k);
    }
  }

  /** One item with a new path adds one location. */
  lemma OneTaken(before: seq<Location>, after: seq<Location>, path: Path)
    requires TakenIn(before, after, 1, [(7, path)]) && PathsDistinct(after)
    requires forall l :: l in before ==> l.path != path
    ensures after == before + [Location(7, 1, path)]
  {
    var n := |before|;
    assert FreeFor(before, 1, [(7, path)], 0);
    assert Location(7, 1, path) in after;
    assert Location(7, 1, path) !in before;
    assert |after| > n || after == before;
    forall j | n <= j < |after|
      ensures after[j] == Location(7, 1, path)
    {
    }
    assert n + 1 < |after| ==> after[n].path == after[n + 1].path;
  }

  lemma SeventhPlaced(occurrences: seq<Occurrence>, locations: seq<Location>, items: map<Key, Place>)
    requires ItemsRight(0, occurrences, locations, items)
    requires occurrences == [Occurrence(1, 5, 0), Occurrence(1, 0, 0)] && locations == [Location(7, 1, [0])]
    ensures 7 in items
  {
    assert Hit(0, occurrences, locations, 7, 0, 0);
    assert ItemRight(0, occurrences, locations, items, 7);
  }
}
