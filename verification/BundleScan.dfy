/** The two-lane scan for pending bundle roots, forward over new heights and backward over old ones. */
module BundleScan {
  import opened Sequences
  import opened Wrappers

  const PAGE: nat := 64
  const SPAN: nat := 1000
  const MAX_POSITION: nat := 0x7FFF_FFFF
  /** Ids are 32 bytes, compared as numbers. */
  const MAX_ID: nat := 0x1_0000000000000000_0000000000000000_0000000000000000_0000000000000000 - 1

  datatype Cursor = Cursor(height: nat, position: nat, kind: nat, id: nat)

  predicate Less(a: Cursor, b: Cursor) {
    a.height < b.height || (a.height == b.height &&
      (a.position < b.position || (a.position == b.position &&
        (a.kind < b.kind || (a.kind == b.kind && a.id < b.id)))))
  }

  /** `a` comes strictly before `b` in the direction of a lane. */
  predicate Earlier(descending: bool, a: Cursor, b: Cursor) {
    if descending then Less(b, a) else Less(a, b)
  }

  /** One bundle root of a block, in block order. */
  datatype Root = Root(position: nat, id: nat, complete: bool)

  /** `chain[h]` are the bundle roots of the canonical block at height `h`. */
  type Chain = seq<seq<Root>>

  ghost predicate BlockOk(roots: seq<Root>) {
    && (forall i | 0 <= i < |roots| :: roots[i].position <= MAX_POSITION && roots[i].id <= MAX_ID)
    && (forall i, j | 0 <= i < j < |roots| :: roots[i].position < roots[j].position)
  }

  ghost predicate ChainOk(chain: Chain) {
    forall h | 0 <= h < |chain| :: BlockOk(chain[h])
  }

  function Key(h: nat, r: Root): Cursor {
    Cursor(h, r.position, 0, r.id)
  }

  predicate Past(descending: bool, after: Option<Cursor>, k: Cursor) {
    after.Some? ==> Earlier(descending, after.value, k)
  }

  // ----- the paged query -----

  /** Pending roots of one block behind the cursor, in lane order. */
  function BlockPending(h: nat, roots: seq<Root>, descending: bool, after: Option<Cursor>): seq<Cursor> {
    if roots == [] then []
    else
      var here := if !roots[0].complete && Past(descending, after, Key(h, roots[0])) then [Key(h, roots[0])] else [];
      var rest := BlockPending(h, roots[1..], descending, after);
      if descending then rest + here else here + rest
  }

  function Completed(roots: seq<Root>): nat {
    if roots == [] then 0 else (if roots[0].complete then 1 else 0) + Completed(roots[1..])
  }

  function Take<T>(n: nat, s: seq<T>): seq<T> {
    if |s| <= n then s else s[..n]
  }

  /** Pending roots of the block at `h`, if there is one. */
  function BlockAt(chain: Chain, h: nat, descending: bool, after: Option<Cursor>): seq<Cursor> {
    if h < |chain| then BlockPending(h, chain[h], descending, after) else []
  }

  /** The query walks a block unless its roots are all complete or it lies before the cursor. */
  predicate Walked(chain: Chain, h: nat, descending: bool, after: Option<Cursor>) {
    && h < |chain| && |chain[h]| > Completed(chain[h])
    && (after.Some? ==> if descending then h <= after.value.height else h >= after.value.height)
  }

  /** Each block between `low` and `high` contributes at most a page. */
  function Candidates(chain: Chain, low: nat, high: int, descending: bool, after: Option<Cursor>): seq<Cursor>
    decreases high + 1 - low
  {
    if low > high then []
    else
      var h := if descending then high else low;
      (if Walked(chain, h, descending, after) then Take(PAGE, BlockAt(chain, h, descending, after)) else [])
      + (if descending then Candidates(chain, low, high - 1, descending, after)
         else Candidates(chain, low + 1, high, descending, after))
  }

  /** One query: the first page of the candidates. */
  function PendingAfter(chain: Chain, after: Option<Cursor>, low: nat, high: int, descending: bool): seq<Cursor> {
    Take(PAGE, Candidates(chain, low, high, descending, after))
  }

  // ----- what a lane still has to yield -----

  ghost function Lane(chain: Chain, low: nat, high: int, descending: bool, after: Option<Cursor>): seq<Cursor>
    decreases high + 1 - low
  {
    if low > high then []
    else
      BlockAt(chain, if descending then high else low, descending, after)
      + (if descending then Lane(chain, low, high - 1, descending, after)
         else Lane(chain, low + 1, high, descending, after))
  }

  lemma {:induction false} TakeConcat<T>(n: nat, a: seq<T>, b: seq<T>, b': seq<T>)
    requires Take(n, b) == Take(n, b')
    ensures Take(n, Take(n, a) + b) == Take(n, a + b')
  {
    var l, r := Take(n, Take(n, a) + b), Take(n, a + b');
    if |a| < n {
      assert forall i | 0 <= i < n && i < |b| :: b[i] == Take(n, b)[i];
      assert forall i | 0 <= i < n && i < |b'| :: b'[i] == Take(n, b')[i];
    }
    assert |l| == |r|;
    assert l == r;
  }

  lemma {:induction false} CompletedAll(h: nat, roots: seq<Root>, descending: bool, after: Option<Cursor>)
    ensures Completed(roots) <= |roots|
    ensures Completed(roots) == |roots| ==> BlockPending(h, roots, descending, after) == []
  {
    if roots != [] {
      CompletedAll(h, roots[1..], descending, after);
    }
  }

  lemma {:induction false} BeforeCursorEmpty(h: nat, roots: seq<Root>, descending: bool, after: Option<Cursor>)
    requires after.Some? && (if descending then h > after.value.height else h < after.value.height)
    ensures BlockPending(h, roots, descending, after) == []
  {
    if roots != [] {
      BeforeCursorEmpty(h, roots[1..], descending, after);
    }
  }

  lemma WalkedExact(chain: Chain, h: nat, descending: bool, after: Option<Cursor>)
    ensures !Walked(chain, h, descending, after) ==> BlockAt(chain, h, descending, after) == []
  {
    if h < |chain| {
      CompletedAll(h, chain[h], descending, after);
      if after.Some? && (if descending then h > after.value.height else h < after.value.height) {
        BeforeCursorEmpty(h, chain[h], descending, after);
      }
    }
  }

  /** A lane and its candidates, taken apart at the first block of the walk. */
  lemma FirstBlock(chain: Chain, low: nat, high: int, descending: bool, after: Option<Cursor>)
    requires low <= high
    ensures var h := if descending then high else low;
            var low', high' := if descending then low else low + 1, if descending then high - 1 else high;
            && Lane(chain, low, high, descending, after)
               == BlockAt(chain, h, descending, after) + Lane(chain, low', high', descending, after)
            && Candidates(chain, low, high, descending, after)
               == (if Walked(chain, h, descending, after) then Take(PAGE, BlockAt(chain, h, descending, after)) else [])
                  + Candidates(chain, low', high', descending, after)
  {
    hide BlockAt, Walked, Take;
  }

  /** The first page of the per-block first pages is the first page of everything. */
  lemma {:induction false} PageOfPages(chain: Chain, low: nat, high: int, descending: bool, after: Option<Cursor>)
    ensures Take(PAGE, Candidates(chain, low, high, descending, after))
         == Take(PAGE, Lane(chain, low, high, descending, after))
    decreases high + 1 - low
  {
    if low <= high {
      var h: nat := if descending then high else low;
      var low', high' := if descending then low else low + 1, if descending then high - 1 else high;
      PageOfPages(chain, low', high', descending, after);
      hide Lane, Candidates, Walked, BlockAt;
      FirstBlock(chain, low, high, descending, after);
      WalkedExact(chain, h, descending, after);
      var none: seq<Cursor> := [];
      assert Take(PAGE, none) == none;
      TakeConcat(PAGE, BlockAt(chain, h, descending, after),
                 Candidates(chain, low', high', descending, after), Lane(chain, low', high', descending, after));
    }
  }

  // ----- the order of a lane and what a cursor cuts off -----

  ghost predicate Sorted(descending: bool, ks: seq<Cursor>) {
    forall i, j | 0 <= i < j < |ks| :: Earlier(descending, ks[i], ks[j])
  }

  ghost predicate IsRoot(h: nat, roots: seq<Root>, k: Cursor) {
    exists i :: 0 <= i < |roots| && !roots[i].complete && k == Key(h, roots[i])
  }

  /** Membership in a lane, without the order of the walk. */
  ghost predicate Pending(chain: Chain, low: nat, high: int, descending: bool, after: Option<Cursor>, k: Cursor) {
    && low <= k.height <= high && k.height < |chain| && Past(descending, after, k)
    && IsRoot(k.height, chain[k.height], k)
  }

  lemma RootsOf(h: nat, first: Root, rest: seq<Root>, k: Cursor)
    ensures IsRoot(h, [first] + rest, k) <==> (k == Key(h, first) && !first.complete) || IsRoot(h, rest, k)
  {
    var roots := [first] + rest;
    if IsRoot(h, roots, k) {
      var i :| 0 <= i < |roots| && !roots[i].complete && k == Key(h, roots[i]);
      assert i > 0 ==> rest[i - 1] == roots[i];
    }
    if IsRoot(h, rest, k) {
      var i :| 0 <= i < |rest| && !rest[i].complete && k == Key(h, rest[i]);
      assert roots[i + 1] == rest[i];
    }
    assert roots[0] == first;
  }

  /** Later roots of a block come behind its first one. */
  lemma BehindFirst(h: nat, roots: seq<Root>, k: Cursor)
    requires BlockOk(roots) && roots != [] && IsRoot(h, roots[1..], k)
    ensures Less(Key(h, roots[0]), k)
  {
    var i :| 0 <= i < |roots[1..]| && k == Key(h, roots[1..][i]);
    assert roots[1..][i] == roots[i + 1];
  }

  lemma {:induction false} BlockMembers(h: nat, roots: seq<Root>, descending: bool, after: Option<Cursor>)
    requires BlockOk(roots)
    ensures Sorted(descending, BlockPending(h, roots, descending, after))
    ensures forall k :: k in BlockPending(h, roots, descending, after) <==>
              Past(descending, after, k) && IsRoot(h, roots, k)
  {
    if roots != [] {
      var rest := BlockPending(h, roots[1..], descending, after);
      BlockMembers(h, roots[1..], descending, after);
      hide IsRoot, BlockOk, Past;
      assert roots == [roots[0]] + roots[1..];
      forall k
        ensures IsRoot(h, roots, k) <==> (k == Key(h, roots[0]) && !roots[0].complete) || IsRoot(h, roots[1..], k)
      {
        RootsOf(h, roots[0], roots[1..], k);
      }
      forall j | 0 <= j < |rest|
        ensures Less(Key(h, roots[0]), rest[j])
      {
        assert rest[j] in rest;
        BehindFirst(h, roots, rest[j]);
      }
    }
  }

  lemma BlockAtMembers(chain: Chain, h: nat, descending: bool, after: Option<Cursor>)
    requires ChainOk(chain)
    ensures Sorted(descending, BlockAt(chain, h, descending, after))
    ensures forall k :: k in BlockAt(chain, h, descending, after) <==> Pending(chain, h, h, descending, after, k)
  {
    if h < |chain| {
      BlockMembers(h, chain[h], descending, after);
    }
  }

  lemma {:induction false} LaneMembers(chain: Chain, low: nat, high: int, descending: bool, after: Option<Cursor>)
    requires ChainOk(chain)
    ensures Sorted(descending, Lane(chain, low, high, descending, after))
    ensures forall k :: k in Lane(chain, low, high, descending, after) <==> Pending(chain, low, high, descending, after, k)
    decreases high + 1 - low
  {
    if low <= high {
      var h: nat := if descending then high else low;
      var low', high' := if descending then low else low + 1, if descending then high - 1 else high;
      var block, rest := BlockAt(chain, h, descending, after), Lane(chain, low', high', descending, after);
      BlockAtMembers(chain, h, descending, after);
      LaneMembers(chain, low', high', descending, after);
      assert Lane(chain, low, high, descending, after) == block + rest;
      hide Lane, BlockAt, IsRoot;
      forall i, j | 0 <= i < |block| && 0 <= j < |rest|
        ensures Earlier(descending, block[i], rest[j])
      {
        assert block[i] in block && rest[j] in rest;
        assert Pending(chain, h, h, descending, after, block[i]);
        assert Pending(chain, low', high', descending, after, rest[j]);
      }
      forall k
        ensures Pending(chain, low, high, descending, after, k) <==>
                Pending(chain, h, h, descending, after, k) || Pending(chain, low', high', descending, after, k)
      {
      }
    }
  }

  lemma TailOf(descending: bool, a: seq<Cursor>, k: Cursor)
    requires Sorted(descending, a) && a != []
    ensures k in a[1..] <==> k in a && k != a[0]
  {
    assert a == [a[0]] + a[1..];
    if k in a[1..] {
      var m :| 0 <= m < |a[1..]| && a[1..][m] == k;
      assert Earlier(descending, a[0], a[m + 1]);
    }
  }

  /** Two walks of the same pending roots in the same order are the same walk. */
  lemma {:induction false} SortedUnique(descending: bool, a: seq<Cursor>, b: seq<Cursor>)
    requires Sorted(descending, a) && Sorted(descending, b)
    requires forall k :: k in a <==> k in b
    ensures a == b
  {
    assert a != [] ==> a[0] in a;
    assert b != [] ==> b[0] in b;
    if a != [] {
      var i :| 0 <= i < |b| && b[i] == a[0];
      var j :| 0 <= j < |a| && a[j] == b[0];
      assert a[0] == b[0];
      assert a == [a[0]] + a[1..] && b == [b[0]] + b[1..];
      forall k
        ensures k in a[1..] <==> k in b[1..]
      {
        assert k in a[1..] <==> k in a && k != a[0] by { TailOf(descending, a, k); }
        assert k in b[1..] <==> k in b && k != b[0] by { TailOf(descending, b, k); }
      }
      SortedUnique(descending, a[1..], b[1..]);
    }
  }

  /** In a sorted list, what comes behind an element is the rest of the list. */
  lemma SuffixMembers(descending: bool, l: seq<Cursor>, n: nat, k: Cursor)
    requires Sorted(descending, l) && 0 < n <= |l|
    ensures k in l[n..] <==> k in l && Earlier(descending, l[n - 1], k)
  {
    if k in l {
      var i :| 0 <= i < |l| && l[i] == k;
      assert i >= n ==> l[n..][i - n] == k;
      assert i < n - 1 ==> Earlier(descending, k, l[n - 1]);
    }
    if k in l[n..] {
      var i :| 0 <= i < |l[n..]| && l[n..][i] == k;
      assert k == l[n + i];
    }
  }

  /** Continuing behind the last root of a page yields exactly the rest. */
  lemma AfterPage(chain: Chain, low: nat, high: int, descending: bool, after: Option<Cursor>, n: nat)
    requires ChainOk(chain) && 0 < n <= |Lane(chain, low, high, descending, after)|
    ensures var l := Lane(chain, low, high, descending, after);
            Lane(chain, low, high, descending, Some(l[n - 1])) == l[n..]
  {
    hide Lane;
    var l := Lane(chain, low, high, descending, after);
    var c := l[n - 1];
    LaneMembers(chain, low, high, descending, after);
    LaneMembers(chain, low, high, descending, Some(c));
    assert c in l;
    forall k
      ensures k in Lane(chain, low, high, descending, Some(c)) <==> k in l[n..]
    {
      SuffixMembers(descending, l, n, k);
    }
    SortedUnique(descending, Lane(chain, low, high, descending, Some(c)), l[n..]);
  }

  /** A cursor may move forward over a stretch without pending roots. */
  lemma SkipEmpty(chain: Chain, low: nat, high: int, descending: bool, after: Option<Cursor>, c: Cursor)
    requires ChainOk(chain)
    requires after.Some? ==> Earlier(descending, after.value, c) || after.value == c
    requires forall k :: Pending(chain, low, high, descending, after, k) ==> Earlier(descending, c, k)
    ensures Lane(chain, low, high, descending, Some(c)) == Lane(chain, low, high, descending, after)
  {
    LaneMembers(chain, low, high, descending, after);
    LaneMembers(chain, low, high, descending, Some(c));
    SortedUnique(descending, Lane(chain, low, high, descending, Some(c)), Lane(chain, low, high, descending, after));
  }

  // ----- one page of the two-lane scan -----

  /** The fixed surroundings of a scan: roots are known up to `metadata`, wanted from
      `start`, and the lanes meet at `boundary`. */
  datatype World = World(chain: Chain, metadata: nat, start: nat, boundary: nat) {
    function LiveLow(): nat { if start < boundary + 1 then boundary + 1 else start }

    function BackfillHigh(): nat { if boundary < metadata then boundary else metadata }

    ghost function Live(after: Option<Cursor>): seq<Cursor> {
      Lane(chain, LiveLow(), metadata, false, after)
    }

    ghost function Backfill(after: Option<Cursor>): seq<Cursor> {
      Lane(chain, start, BackfillHigh(), true, after)
    }
  }

  datatype Page = Page(roots: seq<Cursor>, after: Option<Cursor>, backfill: bool)

  function Last(roots: seq<Cursor>): Option<Cursor> {
    if roots == [] then None else Some(roots[|roots| - 1])
  }

  function LiveHigh(w: World, live: Option<Cursor>): nat {
    var low := w.LiveLow();
    var from := if live.Some? && live.value.height > low then live.value.height else low;
    if w.metadata < from + SPAN - 1 then w.metadata else from + SPAN - 1
  }

  function LivePage(w: World, live: Option<Cursor>): Page {
    var high := LiveHigh(w, live);
    var roots := PendingAfter(w.chain, live, w.LiveLow(), high, false);
    var after := if roots == [] && high < w.metadata then Some(Cursor(high, MAX_POSITION, 1, MAX_ID)) else Last(roots);
    Page(roots, after, false)
  }

  function BackfillLow(w: World, backfill: Option<Cursor>): nat {
    var end := w.BackfillHigh();
    var top := if backfill.Some? && backfill.value.height < end then backfill.value.height else end;
    var low := if top < SPAN - 1 then 0 else top - (SPAN - 1);
    if w.start < low then low else w.start
  }

  function BackfillPage(w: World, backfill: Option<Cursor>): Page {
    var low := BackfillLow(w, backfill);
    var roots := PendingAfter(w.chain, backfill, low, w.BackfillHigh(), true);
    var after := if roots == [] && low > w.start then Some(Cursor(low, 0, 0, 0)) else Last(roots);
    Page(roots, after, true)
  }

  function ScanPage(w: World, live: Option<Cursor>, backfill: Option<Cursor>): Page {
    if w.boundary < w.metadata && w.start <= w.metadata && LivePage(w, live).after.Some? then LivePage(w, live)
    else if w.start > w.BackfillHigh() then Page([], None, true)
    else BackfillPage(w, backfill)
  }

  ghost predicate CursorOk(c: Cursor) {
    c.position <= MAX_POSITION && c.kind <= 1 && c.id <= MAX_ID
  }

  ghost predicate LiveOk(w: World, live: Option<Cursor>) {
    live.Some? ==> CursorOk(live.value) && live.value.height <= w.metadata
  }

  lemma EmptyLane(chain: Chain, low: nat, high: int, descending: bool, after: Option<Cursor>, rest: seq<Cursor>)
    ensures low > high ==> Lane(chain, low, high, descending, after) + rest == rest
  {
  }

  lemma {:induction false} LaneSplitsUp(chain: Chain, low: nat, mid: nat, high: nat, after: Option<Cursor>)
    requires low <= mid + 1 && mid <= high
    ensures Lane(chain, low, high, false, after)
         == Lane(chain, low, mid, false, after) + Lane(chain, mid + 1, high, false, after)
    decreases high + 1 - low
  {
    hide BlockAt, Lane, Candidates, Walked, Take;
    EmptyLane(chain, low, mid, false, after, Lane(chain, mid + 1, high, false, after));
    if low <= mid {
      LaneSplitsUp(chain, low + 1, mid, high, after);
      FirstBlock(chain, low, high, false, after);
      FirstBlock(chain, low, mid, false, after);
      ConcatAssoc(BlockAt(chain, low, false, after), Lane(chain, low + 1, mid, false, after), Lane(chain, mid + 1, high, false, after));
    }
  }

  lemma {:induction false} LaneSplitsDown(chain: Chain, low: nat, mid: nat, high: int, after: Option<Cursor>)
    requires low <= mid <= high + 1
    ensures Lane(chain, low, high, true, after)
         == Lane(chain, mid, high, true, after) + Lane(chain, low, mid - 1, true, after)
    decreases high + 1 - low
  {
    hide BlockAt, Lane, Candidates, Walked, Take;
    EmptyLane(chain, mid, high, true, after, Lane(chain, low, mid - 1, true, after));
    if mid <= high {
      LaneSplitsDown(chain, low, mid, high - 1, after);
      FirstBlock(chain, low, high, true, after);
      FirstBlock(chain, mid, high, true, after);
      ConcatAssoc(BlockAt(chain, high, true, after), Lane(chain, mid, high - 1, true, after), Lane(chain, low, mid - 1, true, after));
    }
  }

  /** A live page is the next stretch of the live lane; without one the lane is done. */
  lemma LiveStep(w: World, live: Option<Cursor>)
    requires ChainOk(w.chain) && LiveOk(w, live) && w.LiveLow() <= w.metadata
    ensures var p, l := LivePage(w, live), w.Live(live);
            && p.roots <= l
            && (p.after.None? ==> l == [])
            && (p.after.Some? ==> LiveOk(w, p.after) && w.Live(p.after) == l[|p.roots|..])
            && (p.after.Some? && p.roots == [] && live.Some? ==> live.value.height < p.after.value.height)
  {
    hide Lane, Candidates;
    var low, high := w.LiveLow(), LiveHigh(w, live);
    var p, l := LivePage(w, live), w.Live(live);
    PageOfPages(w.chain, low, high, false, live);
    LaneSplitsUp(w.chain, low, high, w.metadata, live);
    PageIsPrefix(Lane(w.chain, low, high, false, live), Lane(w.chain, high + 1, w.metadata, false, live));
    hide Take;
    if p.roots != [] {
      AfterRoots(w, live, p.roots);
    } else if high < w.metadata {
      QuietSpan(w, live, high, p.after.value);
    }
  }

  lemma PageIsPrefix(span: seq<Cursor>, rest: seq<Cursor>)
    ensures Take(PAGE, span) <= span + rest
    ensures Take(PAGE, span) == [] ==> span == []
  {
  }

  /** Behind the last root of a page the lane holds the rest. */
  lemma AfterRoots(w: World, live: Option<Cursor>, roots: seq<Cursor>)
    requires ChainOk(w.chain) && roots != [] && roots <= w.Live(live)
    ensures LiveOk(w, Last(roots)) && w.Live(Last(roots)) == w.Live(live)[|roots|..]
  {
    hide Lane;
    var n := |roots|;
    LaneMembers(w.chain, w.LiveLow(), w.metadata, false, live);
    assert roots[n - 1] == w.Live(live)[n - 1];
    assert w.Live(live)[n - 1] in w.Live(live);
    assert Pending(w.chain, w.LiveLow(), w.metadata, false, live, w.Live(live)[n - 1]);
    AfterPage(w.chain, w.LiveLow(), w.metadata, false, live, n);
  }

  /** The cursor may move to the end of a span without pending roots. */
  lemma QuietSpan(w: World, live: Option<Cursor>, high: nat, end: Cursor)
    requires ChainOk(w.chain) && Lane(w.chain, w.LiveLow(), high, false, live) == []
    requires end == Cursor(high, MAX_POSITION, 1, MAX_ID)
    requires live.Some? ==> CursorOk(live.value) && live.value.height <= high
    ensures w.Live(Some(end)) == w.Live(live)
  {
    hide Lane;
    LaneMembers(w.chain, w.LiveLow(), high, false, live);
    forall k | Pending(w.chain, w.LiveLow(), w.metadata, false, live, k)
      ensures k.height > high
    {
      assert k.height <= high ==> Pending(w.chain, w.LiveLow(), high, false, live, k);
    }
    SkipEmpty(w.chain, w.LiveLow(), w.metadata, false, live, end);
  }

  lemma BackfillStep(w: World, backfill: Option<Cursor>)
    requires ChainOk(w.chain) && w.start <= w.BackfillHigh()
    ensures var p, l := BackfillPage(w, backfill), w.Backfill(backfill);
            && p.roots <= l
            && (p.after.None? ==> l == [])
            && (p.after.Some? ==> w.Backfill(p.after) == l[|p.roots|..])
            && (p.after.Some? && p.roots == [] && backfill.Some? ==> p.after.value.height < backfill.value.height)
  {
    hide Lane, Candidates;
    var low, high := BackfillLow(w, backfill), w.BackfillHigh();
    var p, l := BackfillPage(w, backfill), w.Backfill(backfill);
    PageOfPages(w.chain, low, high, true, backfill);
    LaneSplitsDown(w.chain, w.start, low, high, backfill);
    LaneMembers(w.chain, w.start, high, true, backfill);
    if p.roots != [] {
      var n := |p.roots|;
      assert p.roots == l[..n];
      AfterPage(w.chain, w.start, high, true, backfill, n);
    } else {
      LaneMembers(w.chain, low, high, true, backfill);
      if low > w.start {
        forall k | Pending(w.chain, w.start, high, true, backfill, k)
          ensures k.height < low
        {
          assert k.height >= low ==> Pending(w.chain, low, high, true, backfill, k);
        }
        SkipEmpty(w.chain, w.start, high, true, backfill, p.after.value);
      }
    }
  }

  /** A page holds pending roots only, and all of them if it is not full. */
  lemma PageMembers(chain: Chain, low: nat, high: int, descending: bool, after: Option<Cursor>)
    requires ChainOk(chain)
    ensures var page := PendingAfter(chain, after, low, high, descending);
            && |page| <= 64 && (forall k :: k in page ==> low <= k.height <= high)
            && (|page| < 64 ==> forall k :: Pending(chain, low, high, descending, after, k) ==> k in page)
  {
    hide Lane, Candidates, IsRoot, Past;
    PageOfPages(chain, low, high, descending, after);
    LaneMembers(chain, low, high, descending, after);
    assert forall k :: k in Take(PAGE, Lane(chain, low, high, descending, after)) ==> k in Lane(chain, low, high, descending, after);
  }

  /** A live page holds at most 64 roots and reaches 999 heights beyond the one it starts at. With fewer roots it holds all
      of them; without any the cursor moves behind everything of the last height reached, if that is not the last at all. */
  lemma LivePageSpan(w: World, live: Option<Cursor>)
    requires ChainOk(w.chain) && w.LiveLow() <= w.metadata
    ensures var p := LivePage(w, live);
            var from := if live.Some? && live.value.height > w.LiveLow() then live.value.height else w.LiveLow();
            && |p.roots| <= 64 && !p.backfill
            && (forall k :: k in p.roots ==> k.height <= from + 999)
            && (|p.roots| < 64 ==> forall k :: k in w.Live(live) && k.height <= from + 999 ==> k in p.roots)
            && (p.roots == [] ==>
                  p.after == if from + 999 < w.metadata then Some(Cursor(from + 999, 0x7FFF_FFFF, 1, MAX_ID)) else None)
  {
    hide Lane, PendingAfter, Pending;
    var low, high := w.LiveLow(), LiveHigh(w, live);
    PageMembers(w.chain, low, high, false, live);
    forall k | k in w.Live(live)
      ensures low <= k.height <= w.metadata && (k.height <= high ==> Pending(w.chain, low, high, false, live, k))
    {
      InLane(w.chain, low, w.metadata, false, live, k);
      if k.height <= high {
        StillPending(w.chain, low, w.metadata, low, high, false, live, k);
      }
    }
  }

  lemma InLane(chain: Chain, low: nat, high: int, descending: bool, after: Option<Cursor>, k: Cursor)
    requires ChainOk(chain) && k in Lane(chain, low, high, descending, after)
    ensures low <= k.height <= high
  {
    LaneMembers(chain, low, high, descending, after);
    assert Pending(chain, low, high, descending, after, k);
  }

  /** The same for a backfill page, down to 999 heights below and to the lowest place of the last height reached. */
  lemma BackfillPageSpan(w: World, backfill: Option<Cursor>)
    requires ChainOk(w.chain) && w.start <= w.BackfillHigh()
    ensures var p := BackfillPage(w, backfill);
            var top := if backfill.Some? && backfill.value.height < w.BackfillHigh() then backfill.value.height else w.BackfillHigh();
            && |p.roots| <= 64 && p.backfill
            && (forall k :: k in p.roots ==> top <= k.height + 999)
            && (|p.roots| < 64 ==> forall k :: k in w.Backfill(backfill) && top <= k.height + 999 ==> k in p.roots)
            && (p.roots == [] ==> p.after == if w.start + 999 < top then Some(Cursor(top - 999, 0, 0, 0)) else None)
  {
    hide Lane, PendingAfter, Pending;
    var low, high := BackfillLow(w, backfill), w.BackfillHigh();
    PageMembers(w.chain, low, high, true, backfill);
    forall k | k in w.Backfill(backfill)
      ensures w.start <= k.height <= high && (low <= k.height ==> Pending(w.chain, low, high, true, backfill, k))
    {
      InLane(w.chain, w.start, high, true, backfill, k);
      if low <= k.height {
        StillPending(w.chain, w.start, high, low, high, true, backfill, k);
      }
    }
  }

  lemma StillPending(chain: Chain, low: nat, high: int, from: nat, to: int, descending: bool, after: Option<Cursor>, k: Cursor)
    requires ChainOk(chain) && k in Lane(chain, low, high, descending, after) && from <= k.height <= to
    ensures Pending(chain, from, to, descending, after, k)
  {
    LaneMembers(chain, low, high, descending, after);
    assert Pending(chain, low, high, descending, after, k);
  }

  // ----- the discovery loop -----

  /** The scan position the worker keeps. */
  class BundleScan {
    var live: Option<Cursor>
    var backfill: Option<Cursor>

    constructor ()
      ensures live == None && backfill == None
    {
      live, backfill := None, None;
    }

    /** Moves the live cursor back to the end of the stable height. The live lane, over any store, then holds what it
        held and all pending roots above that height, and nothing else. */
    method RewindLive(stable: nat, ghost w: World)
      requires ChainOk(w.chain)
      modifies this`live
      ensures live == Rewound(old(live), stable)
      ensures forall k :: k in w.Live(live) <==> k in w.Live(old(live)) || (k.height > stable && k in w.Live(None))
    {
      RewoundLane(w, live, stable);
      if live.Some? && live.value.height > stable {
        live := Some(Cursor(stable, MAX_POSITION, 1, MAX_ID));
      }
    }
  }

  ghost function Rewound(live: Option<Cursor>, stable: nat): Option<Cursor> {
    if live.Some? && live.value.height > stable then Some(Cursor(stable, MAX_POSITION, 1, MAX_ID)) else live
  }

  /** How far a page without roots can still move a cursor. */
  ghost function LiveRoom(w: World, live: Option<Cursor>): nat {
    match live case None => w.metadata + 1 case Some(c) => if c.height <= w.metadata then w.metadata - c.height else 0
  }

  ghost function BackfillRoom(w: World, backfill: Option<Cursor>): nat {
    match backfill case None => w.metadata + 2 case Some(c) => if c.height <= w.metadata then c.height else w.metadata + 1
  }

  ghost function Room(w: World, live: Option<Cursor>, backfill: Option<Cursor>): nat {
    LiveRoom(w, live) + BackfillRoom(w, backfill)
  }

  /** What both lanes still hold, live roots first. */
  ghost function Rest(w: World, live: Option<Cursor>, backfill: Option<Cursor>): seq<Cursor> {
    w.Live(live) + BackfillRest(w, backfill)
  }

  ghost function BackfillRest(w: World, backfill: Option<Cursor>): seq<Cursor> {
    if w.start <= w.BackfillHigh() then w.Backfill(backfill) else []
  }

  lemma Regroup<T>(taken: seq<T>, all: seq<T>, rest: seq<T>, more: seq<T>)
    requires taken <= all && rest == all[|taken|..]
    ensures taken + (rest + more) == all + more
  {
    assert taken + rest == all;
  }

  lemma ScanLive(w: World, live: Option<Cursor>, backfill: Option<Cursor>)
    requires ChainOk(w.chain) && LiveOk(w, live) && w.LiveLow() <= w.metadata && LivePage(w, live).after.Some?
    ensures var p := ScanPage(w, live, backfill);
            && p == LivePage(w, live) && LiveOk(w, p.after)
            && p.roots + Rest(w, p.after, backfill) == Rest(w, live, backfill)
            && (p.roots == [] ==> Room(w, p.after, backfill) < Room(w, live, backfill))
  {
    LiveStep(w, live);
    var p := LivePage(w, live);
    Regroup(p.roots, w.Live(live), w.Live(p.after), BackfillRest(w, backfill));
  }

  lemma NoLive(w: World, live: Option<Cursor>)
    requires ChainOk(w.chain) && LiveOk(w, live)
    requires !(w.boundary < w.metadata && w.start <= w.metadata && LivePage(w, live).after.Some?)
    ensures w.Live(live) == []
  {
    if w.LiveLow() <= w.metadata {
      LiveStep(w, live);
    }
  }

  lemma ScanBackfill(w: World, live: Option<Cursor>, backfill: Option<Cursor>)
    requires ChainOk(w.chain) && w.Live(live) == [] && w.start <= w.BackfillHigh()
    ensures var p := BackfillPage(w, backfill);
            && (p.after.None? ==> Rest(w, live, backfill) == [])
            && (p.after.Some? ==>
                  && p.roots + Rest(w, live, p.after) == Rest(w, live, backfill)
                  && (p.roots == [] ==> Room(w, live, p.after) < Room(w, live, backfill)))
  {
    BackfillStep(w, backfill);
    var p := BackfillPage(w, backfill);
    assert [] + w.Backfill(backfill) == w.Backfill(backfill);
    if p.after.Some? {
      assert [] + w.Backfill(p.after) == w.Backfill(p.after);
      Regroup(p.roots, w.Backfill(backfill), w.Backfill(p.after), []);
    }
  }

  /** A page is the next stretch of what both lanes hold; no page means nothing is left. */
  lemma ScanStep(w: World, live: Option<Cursor>, backfill: Option<Cursor>)
    requires ChainOk(w.chain) && LiveOk(w, live)
    ensures var p := ScanPage(w, live, backfill);
            var live', backfill' := if p.backfill then live else p.after, if p.backfill then p.after else backfill;
            && (p.after.None? ==> Rest(w, live, backfill) == [])
            && (p.after.Some? ==>
                  && LiveOk(w, live')
                  && p.roots + Rest(w, live', backfill') == Rest(w, live, backfill)
                  && (p.roots == [] ==> Room(w, live', backfill') < Room(w, live, backfill)))
  {
    if w.boundary < w.metadata && w.start <= w.metadata && LivePage(w, live).after.Some? {
      ScanLive(w, live, backfill);
    } else {
      NoLive(w, live);
      if w.start <= w.BackfillHigh() {
        ScanBackfill(w, live, backfill);
      }
    }
  }

  lemma ScanBounded(w: World, live: Option<Cursor>, backfill: Option<Cursor>)
    ensures |ScanPage(w, live, backfill).roots| <= 64
  {
    hide Lane, Candidates;
  }

  /** One query of the worker.  A page moves the cursor of its lane; no page starts a new
      cycle with empty cursors. */
  method NextPage(w: World, scan: BundleScan) returns (page: Page)
    requires ChainOk(w.chain) && LiveOk(w, scan.live)
    modifies scan
    ensures LiveOk(w, scan.live) && |page.roots| <= 64
    ensures page.after.Some? ==>
              && page.roots + Rest(w, scan.live, scan.backfill) == Rest(w, old(scan.live), old(scan.backfill))
              && (page.roots == [] ==>
                    Room(w, scan.live, scan.backfill) < Room(w, old(scan.live), old(scan.backfill)))
    ensures page.after.None? ==>
              && Rest(w, old(scan.live), old(scan.backfill)) == []
              && scan.live == None && scan.backfill == None
  {
    ScanStep(w, scan.live, scan.backfill);
    ScanBounded(w, scan.live, scan.backfill);
    page := ScanPage(w, scan.live, scan.backfill);
    if page.after.None? {
      scan.live, scan.backfill := None, None;
    } else if page.backfill {
      scan.backfill := page.after;
    } else {
      scan.live := page.after;
    }
  }

  lemma Append<T>(wanted: seq<T>, yielded: seq<T>, before: seq<T>, roots: seq<T>, rest: seq<T>)
    requires wanted == yielded + before && before == roots + rest
    ensures wanted == (yielded + roots) + rest
  {
  }

  /** Following the cursors from any position over a frozen store ends and yields what each
      lane still holds, once, in order. */
  method Discover(w: World, scan: BundleScan) returns (yielded: seq<Cursor>)
    requires ChainOk(w.chain) && LiveOk(w, scan.live)
    modifies scan
    ensures yielded == Rest(w, old(scan.live), old(scan.backfill))
    ensures scan.live == None && scan.backfill == None
  {
    yielded := [];
    ghost var wanted := Rest(w, scan.live, scan.backfill);
    ghost var rest := wanted;
    while true
      invariant LiveOk(w, scan.live)
      invariant rest == Rest(w, scan.live, scan.backfill)
      invariant wanted == yielded + rest
      decreases |rest|, Room(w, scan.live, scan.backfill)
    {
      var page := NextPage(w, scan);
      if page.after.None? {
        break;
      }
      Append(wanted, yielded, rest, page.roots, Rest(w, scan.live, scan.backfill));
      rest := Rest(w, scan.live, scan.backfill);
      yielded := yielded + page.roots;
    }
  }

  // ----- a whole cycle -----

  /** A pending root the scan is meant to find. */
  ghost predicate Wanted(w: World, k: Cursor) {
    && w.start <= k.height <= w.metadata && k.height < |w.chain|
    && IsRoot(k.height, w.chain[k.height], k)
  }

  ghost predicate CycleOrder(w: World, a: Cursor, b: Cursor) {
    if a.height > w.boundary then b.height <= w.boundary || Less(a, b)
    else b.height <= w.boundary && Less(b, a)
  }

  /** From empty cursors the scan finds every pending root between `start` and `metadata`,
      each once: those above the boundary ascending, then the others descending. */
  lemma CycleFindsAll(w: World)
    requires ChainOk(w.chain)
    ensures forall k :: k in Rest(w, None, None) <==> Wanted(w, k)
    ensures forall i, j | 0 <= i < j < |Rest(w, None, None)| ::
              CycleOrder(w, Rest(w, None, None)[i], Rest(w, None, None)[j])
              && Rest(w, None, None)[i] != Rest(w, None, None)[j]
  {
    var live, backfill := w.Live(None), if w.start <= w.BackfillHigh() then w.Backfill(None) else [];
    LaneMembers(w.chain, w.LiveLow(), w.metadata, false, None);
    LaneMembers(w.chain, w.start, w.BackfillHigh(), true, None);
    forall k | k in live
      ensures Wanted(w, k) && k.height > w.boundary
    {
      assert Pending(w.chain, w.LiveLow(), w.metadata, false, None, k);
    }
    forall k | k in backfill
      ensures Wanted(w, k) && k.height <= w.boundary
    {
      assert Pending(w.chain, w.start, w.BackfillHigh(), true, None, k);
    }
    forall k | Wanted(w, k)
      ensures k in live || k in backfill
    {
      if k.height > w.boundary {
        assert Pending(w.chain, w.LiveLow(), w.metadata, false, None, k);
      } else {
        assert Pending(w.chain, w.start, w.BackfillHigh(), true, None, k);
      }
    }
    var all := Rest(w, None, None);
    forall i, j | 0 <= i < j < |all|
      ensures CycleOrder(w, all[i], all[j]) && all[i] != all[j]
    {
      if j < |live| {
        assert live[i] in live && live[j] in live;
      } else if i < |live| {
        assert live[i] in live && backfill[j - |live|] in backfill;
      } else {
        assert backfill[i - |live|] in backfill && backfill[j - |live|] in backfill;
      }
    }
  }

  // ----- rewinding the live lane -----

  /** Rewound or not, the lane holds what it held and all pending roots above the stable height. */
  lemma RewoundLane(w: World, live: Option<Cursor>, stable: nat)
    requires ChainOk(w.chain)
    ensures forall k :: k in w.Live(Rewound(live, stable)) <==> k in w.Live(live) || (k.height > stable && k in w.Live(None))
  {
    LaneMembers(w.chain, w.LiveLow(), w.metadata, false, live);
    LaneMembers(w.chain, w.LiveLow(), w.metadata, false, None);
    LaneMembers(w.chain, w.LiveLow(), w.metadata, false, Rewound(live, stable));
    forall k
      ensures k in w.Live(Rewound(live, stable)) <==> k in w.Live(live) || (k.height > stable && k in w.Live(None))
    {
      RewoundPast(w.chain, live, stable, k);
      assert k in w.Live(live) <==> Pending(w.chain, w.LiveLow(), w.metadata, false, live, k);
    }
  }

  lemma RewoundPast(chain: Chain, live: Option<Cursor>, stable: nat, k: Cursor)
    requires ChainOk(chain)
    ensures k.height < |chain| && IsRoot(k.height, chain[k.height], k) ==>
              (Past(false, Rewound(live, stable), k) <==> Past(false, live, k) || k.height > stable)
  {
    if k.height < |chain| {
      assert BlockOk(chain[k.height]);
    }
  }

  /** A rewind to the stable height makes the lane hold every pending root above that
      height again and loses nothing it still held. */
  lemma RewindRevisits(w: World, live: Option<Cursor>, stable: nat)
    requires ChainOk(w.chain) && live.Some? && live.value.height > stable
    ensures w.Live(Rewound(live, stable))
         == Lane(w.chain, if w.LiveLow() < stable + 1 then stable + 1 else w.LiveLow(), w.metadata, false, None)
    ensures forall k :: k in w.Live(live) ==> k in w.Live(Rewound(live, stable))
  {
    var low := if w.LiveLow() < stable + 1 then stable + 1 else w.LiveLow();
    var rewound := Rewound(live, stable);
    LaneMembers(w.chain, w.LiveLow(), w.metadata, false, live);
    LaneMembers(w.chain, w.LiveLow(), w.metadata, false, rewound);
    LaneMembers(w.chain, low, w.metadata, false, None);
    forall k: Cursor | k.height < |w.chain| && IsRoot(k.height, w.chain[k.height], k)
      ensures Past(false, rewound, k) <==> k.height > stable
      ensures Past(false, live, k) ==> k.height > stable
    {
      assert BlockOk(w.chain[k.height]);
    }
    forall k
      ensures Pending(w.chain, w.LiveLow(), w.metadata, false, rewound, k)
         <==> Pending(w.chain, low, w.metadata, false, None, k)
      ensures Pending(w.chain, w.LiveLow(), w.metadata, false, live, k)
         ==> Pending(w.chain, w.LiveLow(), w.metadata, false, rewound, k)
    {
    }
    SortedUnique(false, w.Live(rewound), Lane(w.chain, low, w.metadata, false, None));
  }
}
