/** Building a hybrid torrent from files, and serving it with a web seed.
    What the program writes is proved to be the text of one value, and what
    that value says of every file is read from it by its keys. */
module Torrent {
  import opened Arithmetic
  import opened Wrappers
  import opened Octets
  import opened Bencode
  import opened Decimals
  import opened Merkle
  import opened TorrentPieces

  /** A file as it is read: `size` is what the directory said of it. */
  datatype File = File(name: string, size: nat, content: Bytes)

  /** The hash functions: of pieces, of blocks, and of two tree nodes. */
  datatype Hashing = Hashing(sha1: Bytes -> string, sha256: Bytes -> string, node: (string, string) -> string)

  const ZERO_HASH: string := Repeat('\0', 32)

  function Flatten(parts: seq<string>): string {
    if parts == [] then "" else parts[0] + Flatten(parts[1..])
  }

  lemma {:induction false} FlattenLength(parts: seq<string>, size: nat)
    requires forall k :: 0 <= k < |parts| ==> |parts[k]| == size
    ensures |Flatten(parts)| == |parts| * size
  {
    if parts != [] {
      FlattenLength(parts[1..], size);
      assert |parts| * size == |parts[1..]| * size + size;
    }
  }

  lemma {:induction false} FlattenSplits(parts: seq<string>, i: nat)
    requires i <= |parts|
    ensures Flatten(parts) == Flatten(parts[..i]) + Flatten(parts[i..])
  {
    if i == 0 {
      assert parts[0..] == parts;
      assert "" + Flatten(parts) == Flatten(parts);
    } else {
      FlattenSplits(parts[1..], i - 1);
      assert parts[1..][..i - 1] == parts[..i][1..] && parts[1..][i - 1..] == parts[i..];
      assert parts[0] + (Flatten(parts[..i][1..]) + Flatten(parts[i..]))
          == parts[0] + Flatten(parts[..i][1..]) + Flatten(parts[i..]);
    }
  }

  lemma Middle(a: string, b: string, c: string)
    ensures (a + (b + c))[|a|..|a| + |b|] == b
  {
  }

  /** Texts of one length are found again in the text they were joined to. */
  lemma FlattenAt(parts: seq<string>, size: nat, i: nat)
    requires i < |parts| && forall k :: 0 <= k < |parts| ==> |parts[k]| == size
    ensures |Flatten(parts)| == |parts| * size && i * size + size <= |parts| * size
    ensures Flatten(parts)[i * size..i * size + size] == parts[i]
  {
    FlattenLength(parts, size);
    FlattenLength(parts[..i], size);
    FlattenSplits(parts, i);
    assert parts[i..][1..] == parts[i + 1..];
    Middle(Flatten(parts[..i]), parts[i], Flatten(parts[i + 1..]));
    NextStretch(i, |parts|, size);
  }

  lemma NextStretch(i: nat, n: nat, size: nat)
    requires i < n
    ensures 0 <= i * size <= i * size + size <= n * size
  {
    MulMonotone(i + 1, n, size);
    assert (i + 1) * size == i * size + size;
  }

  // ----- what a torrent says -----

  /** A file filled up with zeros to whole pieces. */
  function PaddedFile(content: Bytes, pieceLength: nat): (r: Bytes)
    requires pieceLength > 0
  {
    content + Repeat(0, PadOf(|content|, pieceLength))
  }

  function PadOf(length: nat, pieceLength: nat): nat
    requires pieceLength > 0
  {
    if length % pieceLength == 0 then 0 else pieceLength - length % pieceLength
  }

  /** All files, one after the other, each filled up. */
  function Stream(files: seq<File>, pieceLength: nat): Bytes
    requires pieceLength > 0
  {
    if files == [] then []
    else Stream(files[..|files| - 1], pieceLength) + PaddedFile(files[|files| - 1].content, pieceLength)
  }

  function FileEntry(f: File): Bencode {
    Dict([Entry("length", Int(|f.content|)), Entry("path", List([Text(f.name)]))])
  }

  function PadEntry(pad: nat): Bencode {
    Dict([Entry("attr", Text("p")), Entry("length", Int(pad)), Entry("path", List([Text(".pad"), Text(Decimal(pad))]))])
  }

  function ListEntries(f: File, pieceLength: nat): seq<Bencode>
    requires pieceLength > 0
  {
    [FileEntry(f)] + (if |f.content| % pieceLength != 0 then [PadEntry(PadOf(|f.content|, pieceLength))] else [])
  }

  /** The version 1 list: every file, followed by its padding if it has any. */
  function FileList(files: seq<File>, pieceLength: nat): seq<Bencode>
    requires pieceLength > 0
  {
    if files == [] then []
    else FileList(files[..|files| - 1], pieceLength) + ListEntries(files[|files| - 1], pieceLength)
  }

  /** The version 2 hash of a file: the root over its blocks, the last level filled up with zeros. */
  function PiecesRoot(hs: Hashing, content: Bytes): string {
    var leaves := Hashes(hs.sha256, content, BLOCK);
    Root(hs.node, Padded(leaves, ZERO_HASH), Log2Ceil(|leaves|))
  }

  function TreeEntry(hs: Hashing, f: File): Bencode {
    var length := Entry("length", Int(|f.content|));
    Dict([Entry("", Dict(if f.content == [] then [length]
                         else [length, Entry("pieces root", Text(PiecesRoot(hs, f.content)))]))])
  }

  function Tree(hs: Hashing, files: seq<File>): seq<Entry> {
    if files == [] then []
    else
      var f := files[|files| - 1];
      Insert(Tree(hs, files[..|files| - 1]), f.name, TreeEntry(hs, f))
  }

  /** The roots of the pieces of a file, `per` blocks each. */
  function PieceRoots(hs: Hashing, content: Bytes, kp: nat): seq<string> {
    var leaves := Hashes(hs.sha256, content, BLOCK);
    var whole := Level(hs.node, Padded(leaves, ZERO_HASH), kp);
    var pieces := CeilDiv(|content|, BLOCK * Pow2(kp));
    if pieces <= |whole| then whole[..pieces] else whole
  }

  /** Only a file longer than one piece has a layer. */
  function AddLayer(hs: Hashing, layers: seq<Entry>, content: Bytes, kp: nat): seq<Entry> {
    if |content| <= BLOCK * Pow2(kp) then layers
    else Insert(layers, PiecesRoot(hs, content), Text(Flatten(PieceRoots(hs, content, kp))))
  }

  function Layers(hs: Hashing, files: seq<File>, kp: nat): seq<Entry> {
    if files == [] then [] else AddLayer(hs, Layers(hs, files[..|files| - 1], kp), files[|files| - 1].content, kp)
  }

  function Info(hs: Hashing, files: seq<File>, kp: nat, name: string): Bencode {
    var pieceLength := BLOCK * Pow2(kp);
    Dict([Entry("file tree", Dict(Tree(hs, files))),
          Entry("files", List(FileList(files, pieceLength))),
          Entry("meta version", Int(2)),
          Entry("name", Text(name)),
          Entry("piece length", Int(pieceLength)),
          Entry("pieces", Text(Flatten(Hashes(hs.sha1, Stream(files, pieceLength), pieceLength))))])
  }

  ghost function Stored(hs: Hashing, files: seq<File>, kp: nat, name: string): Bencode {
    Dict([Entry("info", Info(hs, files, kp, name)), Entry("piece layers", Dict(Layers(hs, files, kp)))])
  }

  // ----- properties of what is said -----

  lemma PaddedIsWhole(content: Bytes, n: nat)
    requires n > 0
    ensures Multiple(|PaddedFile(content, n)|, n)
  {
    var r := |content| % n;
    MultipleIsMod(|PaddedFile(content, n)|, n);
    if r != 0 {
      var q := |content| / n;
      assert |content| + (n - r) == (q + 1) * n + 0;
      DivUnique(|content| + (n - r), n, q + 1, 0);
    }
  }

  lemma {:induction false} StreamIsWhole(files: seq<File>, n: nat)
    requires n > 0
    ensures Multiple(|Stream(files, n)|, n)
    decreases |files|
  {
    if files != [] {
      StreamIsWhole(files[..|files| - 1], n);
      PaddedIsWhole(files[|files| - 1].content, n);
      MultipleSum(|Stream(files[..|files| - 1], n)|, |PaddedFile(files[|files| - 1].content, n)|, n);
    }
  }

  ghost function SumCeil(files: seq<File>, n: nat): nat
    requires n > 0
  {
    if files == [] then 0 else SumCeil(files[..|files| - 1], n) + CeilDiv(|files[|files| - 1].content|, n)
  }

  /** With padding every piece belongs to one file: the pieces are the files' own pieces in turn. */
  lemma PiecesOfLast<D>(digest: Bytes -> D, files: seq<File>, n: nat)
    requires n > 0 && files != []
    ensures Hashes(digest, Stream(files, n), n)
         == Hashes(digest, Stream(files[..|files| - 1], n), n)
            + Hashes(digest, PaddedFile(files[|files| - 1].content, n), n)
  {
    StreamIsWhole(files[..|files| - 1], n);
    HashesSplit(digest, Stream(files[..|files| - 1], n), PaddedFile(files[|files| - 1].content, n), n);
  }

  lemma PaddedCount(length: nat, n: nat)
    requires n > 0
    ensures CeilDiv(length + PadOf(length, n), n) == CeilDiv(length, n)
  {
    var q, r := length / n, length % n;
    assert length == q * n + r;
    if r == 0 {
      assert PadOf(length, n) == 0;
    } else {
      assert length + PadOf(length, n) + n - 1 == (q + 1) * n + (n - 1);
      DivUnique(length + PadOf(length, n) + n - 1, n, q + 1, n - 1);
      assert length + n - 1 == (q + 1) * n + (r - 1);
      DivUnique(length + n - 1, n, q + 1, r - 1);
    }
  }

  /** The number of pieces is the sum of what each file needs. */
  lemma {:induction false} PieceCount<D>(digest: Bytes -> D, files: seq<File>, n: nat)
    requires n > 0
    ensures |Hashes(digest, Stream(files, n), n)| == SumCeil(files, n)
    decreases |files|
  {
    if files != [] {
      var content := files[|files| - 1].content;
      PieceCount(digest, files[..|files| - 1], n);
      PiecesOfLast(digest, files, n);
      HashesCount(digest, PaddedFile(content, n), n);
      PaddedCount(|content|, n);
    }
  }

  /** With padding every piece belongs to one file, and its hash is that file's own. */
  lemma PieceOfFile<D>(digest: Bytes -> D, files: seq<File>, n: nat, i: nat) returns (f: nat)
    requires n > 0 && i < |Hashes(digest, Stream(files, n), n)|
    ensures f < |files| && SumCeil(files[..f], n) <= i < SumCeil(files[..f + 1], n)
    ensures var own := Hashes(digest, PaddedFile(files[f].content, n), n);
            && |own| == CeilDiv(|files[f].content|, n) == SumCeil(files[..f + 1], n) - SumCeil(files[..f], n)
            && Hashes(digest, Stream(files, n), n)[i] == own[i - SumCeil(files[..f], n)]
    ensures forall g | 0 <= g < |files| && SumCeil(files[..g], n) <= i < SumCeil(files[..g + 1], n) :: g == f
  {
    f := SomeFile(digest, files, n, i);
    forall g | 0 <= g < |files| && SumCeil(files[..g], n) <= i < SumCeil(files[..g + 1], n)
      ensures g == f
    {
      if g < f {
        SumCeilGrows(files, g + 1, f, n);
      } else if f < g {
        SumCeilGrows(files, f + 1, g, n);
      }
    }
  }

  lemma {:induction false} SumCeilGrows(files: seq<File>, a: nat, b: nat, n: nat)
    requires n > 0 && a <= b <= |files|
    ensures SumCeil(files[..a], n) <= SumCeil(files[..b], n)
    decreases b
  {
    if a < b {
      SumCeilGrows(files, a, b - 1, n);
      assert files[..b][..b - 1] == files[..b - 1];
    }
  }

  lemma {:induction false} SomeFile<D>(digest: Bytes -> D, files: seq<File>, n: nat, i: nat) returns (f: nat)
    requires n > 0 && i < |Hashes(digest, Stream(files, n), n)|
    ensures f < |files| && SumCeil(files[..f], n) <= i < SumCeil(files[..f + 1], n)
    ensures var own := Hashes(digest, PaddedFile(files[f].content, n), n);
            && |own| == CeilDiv(|files[f].content|, n) == SumCeil(files[..f + 1], n) - SumCeil(files[..f], n)
            && Hashes(digest, Stream(files, n), n)[i] == own[i - SumCeil(files[..f], n)]
    decreases |files|
  {
    hide Hashes, PaddedFile, CeilDiv;
    PieceCount(digest, files, n);
    var last := |files| - 1;
    var front := files[..last];
    PieceCount(digest, front, n);
    PiecesOfLast(digest, files, n);
    if i < SumCeil(front, n) {
      f := SomeFile(digest, front, n, i);
      assert front[..f] == files[..f] && front[..f + 1] == files[..f + 1];
    } else {
      f := last;
      assert files[..last + 1] == files;
      OwnPieces(digest, files[f], n);
    }
  }

  lemma OwnPieces<D>(digest: Bytes -> D, file: File, n: nat)
    requires n > 0
    ensures |Hashes(digest, PaddedFile(file.content, n), n)| == CeilDiv(|file.content|, n)
  {
    HashesCount(digest, PaddedFile(file.content, n), n);
    PaddedCount(|file.content|, n);
  }

  /** What the version 1 list says it covers. */
  ghost function ListedLength(list: seq<Bencode>): nat {
    if list == [] then 0
    else ListedLength(list[..|list| - 1]) + EntryLength(list[|list| - 1])
  }

  ghost function EntryLength(e: Bencode): nat {
    if e.Dict? && Lookup(e.entries, "length").Some? && Lookup(e.entries, "length").value.Int?
    then Lookup(e.entries, "length").value.value else 0
  }

  lemma ListedOne(list: seq<Bencode>, e: Bencode)
    ensures ListedLength(list + [e]) == ListedLength(list) + EntryLength(e)
  {
    assert (list + [e])[..|list|] == list;
  }

  lemma FileEntryLength(f: File)
    ensures EntryLength(FileEntry(f)) == |f.content|
  {
  }

  lemma PadEntryLength(pad: nat)
    ensures EntryLength(PadEntry(pad)) == pad
  {
    var entries := PadEntry(pad).entries;
    assert entries[0].key == "attr" && entries[1].key == "length";
    assert "attr"[0] != "length"[0];
    assert Lookup(entries, "length") == Lookup(entries[1..], "length");
  }

  /** The files and paddings of the list cover the hashed stream exactly. */
  lemma {:induction false} ListCoversStream(files: seq<File>, n: nat)
    requires n > 0
    ensures ListedLength(FileList(files, n)) == |Stream(files, n)|
    decreases |files|
  {
    hide EntryLength;
    if files != [] {
      var f := files[|files| - 1];
      var before := FileList(files[..|files| - 1], n);
      ListCoversStream(files[..|files| - 1], n);
      ListedOne(before, FileEntry(f));
      FileEntryLength(f);
      if |f.content| % n != 0 {
        var pad := PadOf(|f.content|, n);
        ListedOne(before + [FileEntry(f)], PadEntry(pad));
        PadEntryLength(pad);
        assert before + ListEntries(f, n) == before + [FileEntry(f)] + [PadEntry(pad)];
      }
    }
  }

  /** Files of different names are all in the tree, each with its own entry. */
  lemma {:induction false} TreeHasFiles(hs: Hashing, files: seq<File>, i: nat)
    requires i < |files|
    requires forall a, b :: 0 <= a < b < |files| ==> files[a].name != files[b].name
    ensures Sorted(Tree(hs, files))
    ensures Lookup(Tree(hs, files), files[i].name) == Some(TreeEntry(hs, files[i]))
    decreases |files|
  {
    hide TreeEntry, Lookup, Insert, Sorted;
    var f := files[|files| - 1];
    TreeSorted(hs, files);
    TreeSorted(hs, files[..|files| - 1]);
    LookupInsert(Tree(hs, files[..|files| - 1]), f.name, TreeEntry(hs, f), files[i].name);
    if i < |files| - 1 {
      TreeHasFiles(hs, files[..|files| - 1], i);
    }
  }

  lemma {:induction false} TreeSorted(hs: Hashing, files: seq<File>)
    ensures Sorted(Tree(hs, files))
    decreases |files|
  {
    hide TreeEntry, Insert;
    if files != [] {
      TreeSorted(hs, files[..|files| - 1]);
      var f := files[|files| - 1];
      InsertSorted(Tree(hs, files[..|files| - 1]), f.name, TreeEntry(hs, f));
    }
  }

  lemma {:induction false} LayersSorted(hs: Hashing, files: seq<File>, kp: nat)
    ensures Sorted(Layers(hs, files, kp))
    decreases |files|
  {
    hide Insert, PiecesRoot, PieceRoots, Flatten;
    if files != [] {
      LayersSorted(hs, files[..|files| - 1], kp);
      var f := files[|files| - 1];
      InsertSorted(Layers(hs, files[..|files| - 1], kp), PiecesRoot(hs, f.content),
                   Text(Flatten(PieceRoots(hs, f.content, kp))));
    }
  }

  /** The stored piece layer of a long file folds back to the root stored for that file. */
  lemma LayerFoldsToRoot(hs: Hashing, content: Bytes, kp: nat)
    requires |content| > BLOCK * Pow2(kp)
    ensures var roots := PieceRoots(hs, content, kp);
            && |roots| == CeilDiv(|content|, BLOCK * Pow2(kp))
            && Root(hs.node, Padded(roots, ZeroRoot(hs.node, ZERO_HASH, kp)), Log2Ceil(|roots|)) == PiecesRoot(hs, content)
  {
    hide Root, Level, Log2Ceil, CeilDiv, Padded, ZeroRoot;
    var leaves := Hashes(hs.sha256, content, BLOCK);
    BlockCount(hs, content);
    PieceRootsAre(hs, content, kp);
    LayerFolds(hs.node, ZERO_HASH, leaves, PieceRoots(hs, content, kp), |content|, kp);
  }

  lemma BlockCount(hs: Hashing, content: Bytes)
    ensures |Hashes(hs.sha256, content, BLOCK)| == CeilDiv(|content|, BLOCK)
  {
    HashesCount(hs.sha256, content, BLOCK);
  }

  lemma PieceRootsAre(hs: Hashing, content: Bytes, kp: nat)
    requires |content| > BLOCK * Pow2(kp)
    ensures IsPieceLayer(hs.node, ZERO_HASH, Hashes(hs.sha256, content, BLOCK), PieceRoots(hs, content, kp),
                         CeilDiv(|content|, BLOCK * Pow2(kp)), kp)
  {
    hide Root, Level, Log2Ceil, CeilDiv, Padded, Hashes, Pow2;
    BlockCount(hs, content);
    var k := Log2Ceil(|Hashes(hs.sha256, content, BLOCK)|);
    var pieceLength := BLOCK * Pow2(kp);
    PieceLevels(|content|, Pow2(kp), pieceLength, kp);
    WholePieces(hs, content, kp, k);
  }

  lemma WholePieces(hs: Hashing, content: Bytes, kp: nat, k: nat)
    requires k == Log2Ceil(|Hashes(hs.sha256, content, BLOCK)|) && kp <= k
    requires CeilDiv(|content|, BLOCK * Pow2(kp)) <= Pow2(k - kp)
    ensures IsPieceLayer(hs.node, ZERO_HASH, Hashes(hs.sha256, content, BLOCK), PieceRoots(hs, content, kp),
                         CeilDiv(|content|, BLOCK * Pow2(kp)), kp)
  {
    hide Root, Level, Log2Ceil, CeilDiv, Padded, Hashes, Pow2;
    LevelSize(hs.node, Padded(Hashes(hs.sha256, content, BLOCK), ZERO_HASH), k, kp);
  }

  // ----- dictionaries stay in order -----

  lemma {:induction false} BeforeAt(a: string, b: string, k: nat)
    requires k < |a| && k < |b| && a[..k] == b[..k] && a[k] < b[k]
    ensures Before(a, b)
  {
    if k > 0 {
      assert a[0] == a[..k][0] == b[..k][0] == b[0];
      assert a[1..][..k - 1] == a[..k][1..] == b[..k][1..] == b[1..][..k - 1];
      BeforeAt(a[1..], b[1..], k - 1);
    }
  }

  lemma {:induction false} NeighboursSorted(entries: seq<Entry>)
    requires forall i :: 0 < i < |entries| ==> Before(entries[i - 1].key, entries[i].key)
    ensures Sorted(entries)
    decreases |entries|
  {
    if entries != [] {
      var n := |entries| - 1;
      NeighboursSorted(entries[..n]);
      forall i | 0 <= i < n
        ensures Before(entries[i].key, entries[n].key)
      {
        if i < n - 1 {
          assert Before(entries[..n][i].key, entries[..n][n - 1].key);
          BeforeTransitive(entries[i].key, entries[n - 1].key, entries[n].key);
        }
      }
    }
  }

  ghost predicate AllCanonical(entries: seq<Entry>) {
    forall i :: 0 <= i < |entries| ==> CanonicalEntry(entries[i])
  }

  lemma InsertCanonical(entries: seq<Entry>, key: string, value: Bencode)
    requires AllCanonical(entries) && Canonical(value)
    ensures AllCanonical(Insert(entries, key, value))
  {
    hide Insert, Canonical;
    forall i | 0 <= i < |Insert(entries, key, value)|
      ensures CanonicalEntry(Insert(entries, key, value)[i])
    {
      InsertKeys(entries, key, value, i);
    }
  }

  lemma ListCanonical(items: seq<Bencode>)
    requires forall i :: 0 <= i < |items| ==> Canonical(items[i])
    ensures Canonical(List(items))
  {
  }

  lemma LeafCanonical(key: string, v: Bencode)
    requires v.Int? || v.Text?
    ensures Canonical(v) && CanonicalEntry(Entry(key, v)) && CanonicalEntry(Entry(key, List([v])))
  {
  }

  lemma EntriesCanonical(entries: seq<Entry>)
    requires Sorted(entries) && AllCanonical(entries)
    ensures Canonical(Dict(entries))
  {
  }

  lemma TreeEntryCanonical(hs: Hashing, f: File)
    ensures Canonical(TreeEntry(hs, f))
  {
    hide PiecesRoot;
    var inner := TreeEntry(hs, f).entries[0].value;
    assert CanonicalEntry(inner.entries[0]);
    if f.content != [] {
      assert CanonicalEntry(inner.entries[1]);
      BeforeAt("length", "pieces root", 0);
    }
    assert Canonical(inner);
    assert CanonicalEntry(TreeEntry(hs, f).entries[0]);
  }

  lemma {:induction false} TreeCanonical(hs: Hashing, files: seq<File>)
    ensures AllCanonical(Tree(hs, files))
    decreases |files|
  {
    hide TreeEntry, Insert, Canonical;
    if files != [] {
      var f := files[|files| - 1];
      TreeCanonical(hs, files[..|files| - 1]);
      TreeEntryCanonical(hs, f);
      InsertCanonical(Tree(hs, files[..|files| - 1]), f.name, TreeEntry(hs, f));
    }
  }

  lemma {:induction false} LayersCanonical(hs: Hashing, files: seq<File>, kp: nat)
    ensures AllCanonical(Layers(hs, files, kp))
    decreases |files|
  {
    hide PiecesRoot, PieceRoots, Insert, Flatten, AllCanonical;
    if files == [] {
      EmptyCanonical();
    } else {
      var f := files[|files| - 1];
      LayersCanonical(hs, files[..|files| - 1], kp);
      InsertCanonical(Layers(hs, files[..|files| - 1], kp), PiecesRoot(hs, f.content),
                      Text(Flatten(PieceRoots(hs, f.content, kp))));
    }
  }

  lemma EmptyCanonical()
    ensures AllCanonical([])
  {
  }

  lemma FileEntryCanonical(f: File)
    ensures Canonical(FileEntry(f))
  {
    var e := FileEntry(f).entries;
    BeforeAt("length", "path", 0);
    LeafCanonical("length", Int(|f.content|));
    LeafCanonical("path", Text(f.name));
    EntriesCanonical(e);
  }

  lemma PadEntryCanonical(pad: nat)
    ensures Canonical(PadEntry(pad))
  {
    hide Decimal, Before, Canonical;
    var e := PadEntry(pad).entries;
    BeforeAt("attr", "length", 0);
    BeforeAt("length", "path", 0);
    LeafCanonical("attr", Text("p"));
    LeafCanonical("length", Int(pad));
    LeafCanonical("path", Text(".pad"));
    LeafCanonical("path", Text(Decimal(pad)));
    ListCanonical([Text(".pad"), Text(Decimal(pad))]);
    NeighboursSorted(e);
    EntriesCanonical(e);
  }

  lemma ListEntriesCanonical(f: File, n: nat, i: nat)
    requires n > 0 && i < |ListEntries(f, n)|
    ensures Canonical(ListEntries(f, n)[i])
  {
    hide FileEntry, PadEntry, Canonical;
    FileEntryCanonical(f);
    PadEntryCanonical(PadOf(|f.content|, n));
  }

  lemma {:induction false} FileListCanonical(files: seq<File>, n: nat, i: nat)
    requires n > 0 && i < |FileList(files, n)|
    ensures Canonical(FileList(files, n)[i])
    decreases |files|
  {
    hide ListEntries, Canonical;
    var before := FileList(files[..|files| - 1], n);
    if i < |before| {
      FileListCanonical(files[..|files| - 1], n, i);
    } else {
      ListEntriesCanonical(files[|files| - 1], n, i - |before|);
    }
  }

  lemma InfoCanonical(hs: Hashing, files: seq<File>, kp: nat, name: string)
    ensures Canonical(Info(hs, files, kp, name))
  {
    hide Tree, FileList, Stream, Flatten, Hashes, Before, Canonical;
    var e := Info(hs, files, kp, name).entries;
    TreeSorted(hs, files);
    TreeCanonical(hs, files);
    EntriesCanonical(Tree(hs, files));
    var list := FileList(files, BLOCK * Pow2(kp));
    forall i | 0 <= i < |list|
      ensures Canonical(list[i])
    {
      FileListCanonical(files, BLOCK * Pow2(kp), i);
    }
    ListCanonical(list);
    LeafCanonical("meta version", e[2].value);
    LeafCanonical("name", e[3].value);
    LeafCanonical("piece length", e[4].value);
    LeafCanonical("pieces", e[5].value);
    BeforeAt("file tree", "files", 4);
    BeforeAt("files", "meta version", 0);
    BeforeAt("meta version", "name", 0);
    BeforeAt("name", "piece length", 0);
    BeforeAt("piece length", "pieces", 5);
    NeighboursSorted(e);
    EntriesCanonical(e);
  }

  /** The torrent as served: the stored one and the address of a web seed. */
  ghost function Served(hs: Hashing, files: seq<File>, kp: nat, name: string, webSeed: string): Bencode {
    Dict(Stored(hs, files, kp, name).entries + [Entry("url-list", List([Text(webSeed)]))])
  }

  /** Stored and served torrents keep every dictionary sorted. */
  lemma TorrentCanonical(hs: Hashing, files: seq<File>, kp: nat, name: string, webSeed: string)
    ensures Canonical(Stored(hs, files, kp, name))
    ensures Canonical(Served(hs, files, kp, name, webSeed))
  {
    hide Info, Layers, Before, Canonical;
    var e := Served(hs, files, kp, name, webSeed).entries;
    InfoCanonical(hs, files, kp, name);
    LayersSorted(hs, files, kp);
    LayersCanonical(hs, files, kp);
    EntriesCanonical(Layers(hs, files, kp));
    LeafCanonical("url-list", Text(webSeed));
    BeforeAt("info", "piece layers", 0);
    BeforeAt("piece layers", "url-list", 0);
    NeighboursSorted(e);
    EntriesCanonical(e);
    NeighboursSorted(Stored(hs, files, kp, name).entries);
    EntriesCanonical(Stored(hs, files, kp, name).entries);
  }

  // ----- building -----

  /** The hashes of one file, read in pieces of any size; the stream of all files sees it too. */
  method HashFile(hs: Hashing, v1: V1Pieces<string>, content: Bytes) returns (leaves: seq<string>, length: nat)
    requires v1.Valid()
    modifies v1
    ensures v1.Valid() && v1.fed == old(v1.fed) + content && length == |content|
    ensures leaves == if content == [] then [hs.sha256([])] else Hashes(hs.sha256, content, 16384)
  {
    hide Hashes, Hashed;
    leaves, length := [], 0;
    var block: Bytes := [];
    HashedStart(hs.sha256, BLOCK);
    assert content[..0] == [];
    while length < |content|
      invariant 0 <= length <= |content| && v1.Valid()
      invariant v1.fed == old(v1.fed) + content[..length]
      invariant Hashed(hs.sha256, BLOCK, content[..length], leaves, block)
    {
      var short: nat := *;
      var read := 1 + short % (|content| - length);
      var chunk := content[length..length + read];
      v1.Update(chunk);
      leaves, block := SplitBlocks(hs.sha256, BLOCK, content[..length], leaves, block, chunk);
      assert content[..length] + chunk == content[..length + read];
      length := length + read;
    }
    assert content[..length] == content;
    HashedEnd(hs.sha256, BLOCK, content, leaves, block);
    NoHashes(hs.sha256, content);
    if |block| > 0 || leaves == [] {
      leaves := leaves + [hs.sha256(block)];
    }
  }

  lemma NoHashes(digest: Bytes -> string, content: Bytes)
    ensures Hashes(digest, content, BLOCK) == [] <==> content == []
  {
  }

  lemma FilesSoFar(files: seq<File>, i: nat)
    requires i < |files|
    ensures files[..i + 1][..i] == files[..i]
  {
  }

  /** Hash one file and add what the torrent says of it; false if its size is not what it was said to be. */
  method AddFile(hs: Hashing, v1: V1Pieces<string>, f: File, pieceLength: nat, ghost kp: nat,
                 list: seq<Bencode>, tree: seq<Entry>, layers: seq<Entry>)
    returns (ok: bool, list': seq<Bencode>, tree': seq<Entry>, layers': seq<Entry>)
    requires v1.Valid() && pieceLength == BLOCK * Pow2(kp)
    modifies v1
    ensures v1.Valid()
    ensures ok <==> |f.content| == f.size
    ensures ok ==> v1.fed == old(v1.fed) + PaddedFile(f.content, pieceLength)
    ensures ok ==> list' == list + ListEntries(f, pieceLength)
    ensures ok ==> tree' == Insert(tree, f.name, TreeEntry(hs, f))
    ensures ok ==> layers' == AddLayer(hs, layers, f.content, kp)
  {
    hide Hashes, Root, Level, Log2Ceil, Padded, CeilDiv, Insert, Flatten, Decimal, Hashed;
    hide PieceRoots, IsPieceLayer, PaddedFile, ZERO_HASH;
    list', tree', layers' := list, tree, layers;
    var leaves, length := HashFile(hs, v1, f.content);
    ok := length == f.size;
    if !ok {
      return;
    }
    list' := list' + [Dict([Entry("length", Int(length)), Entry("path", List([Text(f.name)]))])];
    var entry := [Entry("length", Int(length))];
    if length > 0 {
      BlockCount(hs, f.content);
      var root, layer := Merkle.Merkle(hs.node, ZERO_HASH, leaves, length, pieceLength, kp);
      assert root == PiecesRoot(hs, f.content);
      entry := entry + [Entry("pieces root", Text(root))];
      if layer.Some? {
        SameLayer(hs, f.content, kp, layer.value);
        layers' := Insert(layers', root, Text(Flatten(layer.value)));
      }
    }
    assert entry == TreeEntry(hs, f).entries[0].value.entries;
    tree' := Insert(tree', f.name, Dict([Entry("", Dict(entry))]));
    var remainder := length % pieceLength;
    PadBytes(f.content, pieceLength);
    if remainder != 0 {
      var pad := pieceLength - remainder;
      v1.Update(Repeat(0, pad));
      list' := list' + [Dict([Entry("attr", Text("p")), Entry("length", Int(pad)),
                              Entry("path", List([Text(".pad"), Text(Decimal(pad))]))])];
    }
  }

  // ----- what a reader of the text finds -----

  ghost function Field(v: Bencode, key: string): Option<Bencode> {
    if v.Dict? then Lookup(v.entries, key) else None
  }

  /** The tree holds the file under its name, with its length and, unless it is empty, its root. */
  ghost predicate InTree(hs: Hashing, tree: Bencode, f: File) {
    && Field(tree, f.name).Some? && Field(Field(tree, f.name).value, "").Some?
    && var said := Field(Field(tree, f.name).value, "").value;
       && Field(said, "length") == Some(Int(|f.content|))
       && Field(said, "pieces root") == (if f.content == [] then None else Some(Text(PiecesRoot(hs, f.content))))
  }

  /** Where a file stands in the list: behind the files before it and their paddings. */
  ghost function PlaceInList(files: seq<File>, n: nat, i: nat): nat
    requires n > 0 && i <= |files|
  {
    if i == 0 then 0
    else PlaceInList(files, n, i - 1) + if |files[i - 1].content| % n == 0 then 1 else 2
  }

  /** The list holds the file with its length and path, then what fills its last piece, if anything does. */
  ghost predicate InList(list: seq<Bencode>, files: seq<File>, n: nat, i: nat)
    requires n > 0 && i < |files|
  {
    var k, length := PlaceInList(files, n, i), |files[i].content|;
    && k < |list|
    && Field(list[k], "length") == Some(Int(length)) && Field(list[k], "path") == Some(List([Text(files[i].name)]))
    && Field(list[k], "attr") == None
    && (length % n != 0 ==>
          && k + 1 < |list| && Field(list[k + 1], "attr") == Some(Text("p"))
          && Field(list[k + 1], "length") == Some(Int(n - length % n))
          && Field(list[k + 1], "path") == Some(List([Text(".pad"), Text(Decimal(n - length % n))])))
  }

  /** A layer is that of a file longer than a piece, and every such file's root has one. */
  ghost predicate LayersSay(hs: Hashing, layers: seq<Entry>, files: seq<File>, kp: nat) {
    && (forall key :: Lookup(layers, key).Some? ==> exists j :: LayerOf(hs, layers, files, kp, key, j))
    && (forall i | 0 <= i < |files| && |files[i].content| > BLOCK * Pow2(kp) ::
          Lookup(layers, PiecesRoot(hs, files[i].content)).Some?)
  }

  ghost predicate LayerOf(hs: Hashing, layers: seq<Entry>, files: seq<File>, kp: nat, key: string, j: int) {
    && 0 <= j < |files| && |files[j].content| > BLOCK * Pow2(kp) && PiecesRoot(hs, files[j].content) == key
    && Lookup(layers, key) == Some(Text(Flatten(PieceRoots(hs, files[j].content, kp))))
  }

  /** The torrent of some files, as it is read. */
  ghost predicate Says(hs: Hashing, files: seq<File>, kp: nat, name: string, v: Bencode) {
    var n := 16384 * Pow2(kp);
    && n > 0 && Field(v, "info").Some? && Field(v, "piece layers").Some?
    && var info, layers := Field(v, "info").value, Field(v, "piece layers").value;
    && Field(info, "meta version") == Some(Int(2))
    && Field(info, "name") == Some(Text(name))
    && Field(info, "piece length") == Some(Int(n))
    && Field(info, "pieces") == Some(Text(Flatten(Hashes(hs.sha1, Stream(files, n), n))))
    && Field(info, "files").Some? && Field(info, "files").value.List?
    && |Field(info, "files").value.items| == PlaceInList(files, n, |files|)
    && (forall i | 0 <= i < |files| :: InList(Field(info, "files").value.items, files, n, i))
    && Field(info, "file tree").Some?
    && ((forall a, b :: 0 <= a < b < |files| ==> files[a].name != files[b].name) ==>
          forall i | 0 <= i < |files| :: InTree(hs, Field(info, "file tree").value, files[i]))
    && layers.Dict? && LayersSay(hs, layers.entries, files, kp)
  }

  lemma FirstKey(entries: seq<Entry>, key: string)
    requires entries != []
    ensures Lookup(entries, key) == if entries[0].key == key then Some(entries[0].value) else Lookup(entries[1..], key)
  {
  }

  lemma InfoFields(tree: Bencode, list: Bencode, name: string, n: nat, pieces: string)
    ensures var info := Dict([Entry("file tree", tree), Entry("files", list), Entry("meta version", Int(2)),
                              Entry("name", Text(name)), Entry("piece length", Int(n)), Entry("pieces", Text(pieces))]);
            && Field(info, "file tree") == Some(tree) && Field(info, "files") == Some(list)
            && Field(info, "meta version") == Some(Int(2)) && Field(info, "name") == Some(Text(name))
            && Field(info, "piece length") == Some(Int(n)) && Field(info, "pieces") == Some(Text(pieces))
  {
    var a, b, c := Entry("file tree", tree), Entry("files", list), Entry("meta version", Int(2));
    var d, e, f := Entry("name", Text(name)), Entry("piece length", Int(n)), Entry("pieces", Text(pieces));
    hide Lookup;
    assert "meta version"[0] != "piece length"[0];
    LookupSix(a, b, c, d, e, f, "file tree");
    LookupSix(a, b, c, d, e, f, "files");
    LookupSix(a, b, c, d, e, f, "meta version");
    LookupSix(a, b, c, d, e, f, "name");
    LookupSix(a, b, c, d, e, f, "piece length");
    LookupSix(a, b, c, d, e, f, "pieces");
  }

  lemma LookupSix(a: Entry, b: Entry, c: Entry, d: Entry, e: Entry, f: Entry, key: string)
    ensures Lookup([a, b, c, d, e, f], key) ==
            if a.key == key then Some(a.value) else if b.key == key then Some(b.value)
            else if c.key == key then Some(c.value) else if d.key == key then Some(d.value)
            else if e.key == key then Some(e.value) else if f.key == key then Some(f.value) else None
  {
    FirstKey([a, b, c, d, e, f], key);
    FirstKey([b, c, d, e, f], key);
    FirstKey([c, d, e, f], key);
    LookupThree(d, e, f, key);
    assert [a, b, c, d, e, f][1..] == [b, c, d, e, f] && [b, c, d, e, f][1..] == [c, d, e, f] && [c, d, e, f][1..] == [d, e, f];
  }

  lemma LookupThree(a: Entry, b: Entry, c: Entry, key: string)
    ensures Lookup([a, b, c], key) ==
            if a.key == key then Some(a.value) else if b.key == key then Some(b.value)
            else if c.key == key then Some(c.value) else None
  {
    LookupTwo(b, c, key);
    assert [a, b, c][1..] == [b, c];
  }

  lemma LookupTwo(a: Entry, b: Entry, key: string)
    ensures Lookup([a, b], key) == if a.key == key then Some(a.value) else if b.key == key then Some(b.value) else None
    ensures Lookup([a], key) == if a.key == key then Some(a.value) else None
  {
    assert [a, b][1..] == [b] && [b][1..] == [] && [a][1..] == [];
    FirstKey([a, b], key);
    FirstKey([b], key);
    FirstKey([a], key);
  }

  lemma {:induction false} ListLength(files: seq<File>, n: nat)
    requires n > 0
    ensures |FileList(files, n)| == PlaceInList(files, n, |files|)
    decreases |files|
  {
    if files != [] {
      var front := files[..|files| - 1];
      ListLength(front, n);
      SamePlace(files, front, n, |front|);
    }
  }

  lemma {:induction false} SamePlace(files: seq<File>, front: seq<File>, n: nat, i: nat)
    requires n > 0 && i <= |front| && front <= files
    ensures PlaceInList(files, n, i) == PlaceInList(front, n, i)
    decreases i
  {
    if i > 0 {
      SamePlace(files, front, n, i - 1);
    }
  }

  lemma EntryFields(f: File, pad: nat)
    ensures Field(FileEntry(f), "length") == Some(Int(|f.content|)) && Field(FileEntry(f), "path") == Some(List([Text(f.name)]))
    ensures Field(FileEntry(f), "attr") == None
    ensures Field(PadEntry(pad), "attr") == Some(Text("p")) && Field(PadEntry(pad), "length") == Some(Int(pad))
    ensures Field(PadEntry(pad), "path") == Some(List([Text(".pad"), Text(Decimal(pad))]))
  {
    hide Lookup, Decimal;
    assert "attr"[0] != "path"[0];
    LookupTwo(Entry("length", Int(|f.content|)), Entry("path", List([Text(f.name)])), "length");
    LookupTwo(Entry("length", Int(|f.content|)), Entry("path", List([Text(f.name)])), "path");
    LookupTwo(Entry("length", Int(|f.content|)), Entry("path", List([Text(f.name)])), "attr");
    var a, b, c := Entry("attr", Text("p")), Entry("length", Int(pad)), Entry("path", List([Text(".pad"), Text(Decimal(pad))]));
    LookupThree(a, b, c, "attr");
    LookupThree(a, b, c, "length");
    LookupThree(a, b, c, "path");
  }

  lemma {:induction false} ListSays(files: seq<File>, n: nat, i: nat)
    requires n > 0 && i < |files|
    ensures InList(FileList(files, n), files, n, i)
    decreases |files|
  {
    hide InList, ListEntries, PlaceInList;
    var last := |files| - 1;
    var front := files[..last];
    ListLength(front, n);
    SamePlace(files, front, n, last);
    assert FileList(files, n) == FileList(front, n) + ListEntries(files[last], n);
    hide FileList;
    if i < last {
      ListSays(front, n, i);
      SaysMore(FileList(front, n), FileList(files, n), front, files, n, i);
    } else {
      SaysLast(FileList(front, n), files, n);
    }
  }

  lemma SaysMore(list: seq<Bencode>, more: seq<Bencode>, front: seq<File>, files: seq<File>, n: nat, i: nat)
    requires n > 0 && i < |front| && front <= files && list <= more && InList(list, front, n, i)
    ensures InList(more, files, n, i)
  {
    hide PlaceInList, Field;
    SamePlace(files, front, n, i);
  }

  lemma SaysLast(list: seq<Bencode>, files: seq<File>, n: nat)
    requires n > 0 && files != [] && |list| == PlaceInList(files, n, |files| - 1)
    ensures InList(list + ListEntries(files[|files| - 1], n), files, n, |files| - 1)
  {
    hide PlaceInList, Field, FileEntry, PadEntry;
    var f := files[|files| - 1];
    EntryFields(f, PadOf(|f.content|, n));
  }

  lemma TreeSays(hs: Hashing, files: seq<File>, i: nat)
    requires i < |files|
    requires forall a, b :: 0 <= a < b < |files| ==> files[a].name != files[b].name
    ensures InTree(hs, Dict(Tree(hs, files)), files[i])
  {
    TreeHasFiles(hs, files, i);
    hide Tree, PiecesRoot;
    var f := files[i];
    var length := Entry("length", Int(|f.content|));
    var inner := if f.content == [] then [length] else [length, Entry("pieces root", Text(PiecesRoot(hs, f.content)))];
    LookupTwo(Entry("", Dict(inner)), length, "");
    if f.content == [] {
      LookupTwo(length, length, "length");
      LookupTwo(length, length, "pieces root");
    } else {
      LookupTwo(inner[0], inner[1], "length");
      LookupTwo(inner[0], inner[1], "pieces root");
    }
  }

  lemma {:induction false} LayersAre(hs: Hashing, files: seq<File>, kp: nat)
    ensures Sorted(Layers(hs, files, kp)) && LayersSay(hs, Layers(hs, files, kp), files, kp)
    decreases |files|
  {
    hide PiecesRoot, PieceRoots, Flatten, Insert, Lookup, Sorted;
    if files == [] {
      NoLayers(hs, kp);
    } else {
      var last := |files| - 1;
      var front := files[..last];
      LayersAre(hs, front, kp);
      LayerAdded(hs, Layers(hs, front, kp), front, files[last], files, kp);
    }
  }

  lemma NoLayers(hs: Hashing, kp: nat)
    ensures Sorted(Layers(hs, [], kp)) && LayersSay(hs, Layers(hs, [], kp), [], kp)
  {
  }

  lemma LayerAdded(hs: Hashing, layers: seq<Entry>, front: seq<File>, f: File, files: seq<File>, kp: nat)
    requires Sorted(layers) && LayersSay(hs, layers, front, kp) && files == front + [f]
    ensures Sorted(AddLayer(hs, layers, f.content, kp)) && LayersSay(hs, AddLayer(hs, layers, f.content, kp), files, kp)
  {
    hide PiecesRoot, PieceRoots, Flatten, Insert, Lookup, Sorted;
    var after := AddLayer(hs, layers, f.content, kp);
    if |f.content| > BLOCK * Pow2(kp) {
      InsertSorted(layers, PiecesRoot(hs, f.content), Text(Flatten(PieceRoots(hs, f.content, kp))));
    }
    forall key
      ensures Lookup(after, key) ==
              if |f.content| > BLOCK * Pow2(kp) && key == PiecesRoot(hs, f.content)
              then Some(Text(Flatten(PieceRoots(hs, f.content, kp)))) else Lookup(layers, key)
    {
      if |f.content| > BLOCK * Pow2(kp) {
        LookupInsert(layers, PiecesRoot(hs, f.content), Text(Flatten(PieceRoots(hs, f.content, kp))), key);
      }
    }
    forall key | Lookup(after, key).Some?
      ensures exists j :: LayerOf(hs, after, files, kp, key, j)
    {
      if |f.content| > BLOCK * Pow2(kp) && key == PiecesRoot(hs, f.content) {
        assert LayerOf(hs, after, files, kp, key, |front|);
      } else {
        var j :| LayerOf(hs, layers, front, kp, key, j);
        assert LayerOf(hs, after, files, kp, key, j);
      }
    }
  }

  /** The stored torrent, read back, says what it should of its files. */
  lemma TorrentSays(hs: Hashing, files: seq<File>, kp: nat, name: string)
    ensures Says(hs, files, kp, name, Stored(hs, files, kp, name))
  {
    var n := BLOCK * Pow2(kp);
    PiecesPositive(kp);
    hide Hashes, Stream, FileList, Tree, Layers, Flatten, Field, InList, InTree, LayersSay;
    InfoFields(Dict(Tree(hs, files)), List(FileList(files, n)), name, n, Flatten(Hashes(hs.sha1, Stream(files, n), n)));
    StoredFields(hs, files, kp, name);
    ListLength(files, n);
    LayersAre(hs, files, kp);
    forall i | 0 <= i < |files|
      ensures InList(FileList(files, n), files, n, i)
    {
      ListSays(files, n, i);
    }
    if forall a, b :: 0 <= a < b < |files| ==> files[a].name != files[b].name {
      forall i | 0 <= i < |files|
        ensures InTree(hs, Dict(Tree(hs, files)), files[i])
      {
        TreeSays(hs, files, i);
      }
    }
  }

  lemma PiecesPositive(kp: nat)
    ensures BLOCK * Pow2(kp) > 0
  {
  }

  lemma StoredFields(hs: Hashing, files: seq<File>, kp: nat, name: string)
    ensures Field(Stored(hs, files, kp, name), "info") == Some(Info(hs, files, kp, name))
    ensures Field(Stored(hs, files, kp, name), "piece layers") == Some(Dict(Layers(hs, files, kp)))
  {
    hide Info, Layers, Lookup;
    var e := Stored(hs, files, kp, name).entries;
    LookupTwo(e[0], e[1], "info");
    LookupTwo(e[0], e[1], "piece layers");
  }

  /** Hash every file once and write the torrent. Fails exactly if a file is not the size it was said to be. */
  method BuildTorrent(hs: Hashing, files: seq<File>, pieceLength: nat, ghost kp: nat, name: string)
    returns (r: Option<string>)
    requires pieceLength == BLOCK * Pow2(kp)
    ensures r.None? <==> exists i :: 0 <= i < |files| && |files[i].content| != files[i].size
    ensures r.Some? ==> r.value == Encode(Stored(hs, files, kp, name))
    ensures r.Some? ==> exists v :: Parse(r.value) == Some((v, "")) && Says(hs, files, kp, name, v)
  {
    hide Hashes, Insert, Encode, Flatten, PaddedFile, TreeEntry, AddLayer, ListEntries;
    var v1 := new V1Pieces<string>(hs.sha1, pieceLength);
    var list: seq<Bencode> := [];
    var tree: seq<Entry> := [];
    var layers: seq<Entry> := [];
    var i := 0;
    while i < |files|
      invariant 0 <= i <= |files| && v1.Valid() && fresh(v1) && v1.digest == hs.sha1 && v1.pieceLength == pieceLength
      invariant forall k :: 0 <= k < i ==> |files[k].content| == files[k].size
      invariant v1.fed == Stream(files[..i], pieceLength)
      invariant list == FileList(files[..i], pieceLength)
      invariant tree == Tree(hs, files[..i])
      invariant layers == Layers(hs, files[..i], kp)
    {
      FilesSoFar(files, i);
      var ok;
      ok, list, tree, layers := AddFile(hs, v1, files[i], pieceLength, kp, list, tree, layers);
      if !ok {
        return None;
      }
      i := i + 1;
    }
    assert files[..i] == files;
    var pieces := v1.Finish();
    var info := Dict([Entry("file tree", Dict(tree)), Entry("files", List(list)), Entry("meta version", Int(2)),
                      Entry("name", Text(name)), Entry("piece length", Int(pieceLength)),
                      Entry("pieces", Text(Flatten(pieces)))]);
    assert info == Info(hs, files, kp, name);
    Spliced(info, Dict(layers));
    r := Some("d4:info" + Encode(info) + "12:piece layers" + Encode(Dict(layers)) + "e");
    ReadBack(hs, files, kp, name);
  }

  lemma ReadBack(hs: Hashing, files: seq<File>, kp: nat, name: string)
    ensures exists v :: Parse(Encode(Stored(hs, files, kp, name))) == Some((v, "")) && Says(hs, files, kp, name, v)
  {
    var v := Stored(hs, files, kp, name);
    TorrentSays(hs, files, kp, name);
    ParseInvertsEncode(v, "");
    hide Encode, Parse, Stored, Says;
    assert Encode(v) + "" == Encode(v);
  }

  lemma SameLayer(hs: Hashing, content: Bytes, kp: nat, layer: seq<string>)
    requires |content| > BLOCK * Pow2(kp)
    requires IsPieceLayer(hs.node, ZERO_HASH, Hashes(hs.sha256, content, BLOCK), layer,
                          CeilDiv(|content|, BLOCK * Pow2(kp)), kp)
    ensures layer == PieceRoots(hs, content, kp)
  {
    hide Root, Level, Log2Ceil, CeilDiv, Padded, Hashes;
    PieceRootsAre(hs, content, kp);
  }

  lemma PadBytes(content: Bytes, n: nat)
    requires n > 0
    ensures PaddedFile(content, n) == if |content| % n == 0 then content else content + Repeat(0, n - |content| % n)
  {
  }

  /** Splicing the encoded parts together is encoding the whole. */
  lemma Spliced(info: Bencode, layers: Bencode)
    ensures "d4:info" + Encode(info) + "12:piece layers" + Encode(layers) + "e"
         == Encode(Dict([Entry("info", info), Entry("piece layers", layers)]))
  {
    hide Encode, EncodeText;
    var e := [Entry("info", info), Entry("piece layers", layers)];
    TwoEntries(e[0], e[1]);
    EncodeDict(e);
    KeyTexts();
    Resplice(Encode(info), Encode(layers));
  }

  lemma KeyTexts()
    ensures EncodeText("info") == "4:info" && EncodeText("piece layers") == "12:piece layers"
  {
    assert Decimal(12) == Decimal(1) + "2" == "12";
  }

  lemma Resplice(info: string, layers: string)
    ensures "d4:info" + info + "12:piece layers" + layers + "e"
         == "d" + ("4:info" + info + ("12:piece layers" + layers)) + "e"
  {
  }

  // ----- serving -----

  /** A served torrent is the stored one with the address as one more, last key. */
  lemma ServedIsEncoded(hs: Hashing, files: seq<File>, kp: nat, name: string, webSeed: string)
    ensures var torrent := Encode(Stored(hs, files, kp, name));
            && torrent != []
            && torrent[..|torrent| - 1] + "8:url-listl" + Encode(Text(webSeed)) + "ee"
               == Encode(Served(hs, files, kp, name, webSeed))
  {
    hide Encode, Info, Layers, EncodeText;
    var e := Stored(hs, files, kp, name).entries;
    var url := Entry("url-list", List([Text(webSeed)]));
    TwoEntries(e[0], e[1]);
    ThreeEntries(e[0], e[1], url);
    assert e + [url] == [e[0], e[1], url];
    EncodeDict(e);
    EncodeDict(e + [url]);
    UrlEntry(webSeed);
    var front := "d" + EncodeEntries(e);
    var torrent := Encode(Stored(hs, files, kp, name));
    assert torrent == front + "e" && torrent[..|torrent| - 1] == front;
    assert "d" + (EncodeEntries(e) + (EncodeText(url.key) + Encode(url.value))) + "e"
        == front + (EncodeText(url.key) + Encode(url.value)) + "e";
  }

  lemma UrlEntry(webSeed: string)
    ensures EncodeText("url-list") + Encode(List([Text(webSeed)])) == "8:url-listl" + Encode(Text(webSeed)) + "e"
  {
    var items := [Text(webSeed)];
    assert items[1..] == [] && EncodeItems(items) == Encode(items[0]) + EncodeItems(items[1..]);
    assert EncodeItems(items) == Encode(Text(webSeed));
    assert EncodeText("url-list") == "8:url-list";
  }

  lemma ThreeEntries(a: Entry, b: Entry, c: Entry)
    ensures EncodeEntries([a, b, c]) == EncodeEntries([a, b]) + (EncodeText(c.key) + Encode(c.value))
  {
    hide Encode, EncodeText;
    assert [a, b, c][1..] == [b, c];
    TwoEntries(b, c);
    TwoEntries(a, b);
  }

  /** The info dictionary stands unchanged at the same place in the stored and the served torrent, so
      the info hashes are those of what is served. */
  lemma InfoKept(hs: Hashing, files: seq<File>, kp: nat, name: string, webSeed: string)
    ensures var info := Encode(Info(hs, files, kp, name));
            && "d4:info" + info <= Encode(Stored(hs, files, kp, name))
            && "d4:info" + info <= Encode(Served(hs, files, kp, name, webSeed))
  {
    hide Encode, Info, Layers;
    var stored := Encode(Stored(hs, files, kp, name));
    var info := Encode(Info(hs, files, kp, name));
    Spliced(Info(hs, files, kp, name), Dict(Layers(hs, files, kp)));
    ServedIsEncoded(hs, files, kp, name, webSeed);
    assert stored == "d4:info" + info + ("12:piece layers" + Encode(Dict(Layers(hs, files, kp))) + "e");
    assert "d4:info" + info <= stored[..|stored| - 1];
  }

  /** What is served says the same, and where to fetch the files. */
  lemma ServedSays(hs: Hashing, files: seq<File>, kp: nat, name: string, webSeed: string)
    ensures exists v :: Parse(Encode(Served(hs, files, kp, name, webSeed))) == Some((v, "")) && Says(hs, files, kp, name, v)
                        && Field(v, "url-list") == Some(List([Text(webSeed)]))
  {
    var v, stored := Served(hs, files, kp, name, webSeed), Stored(hs, files, kp, name);
    TorrentSays(hs, files, kp, name);
    StoredFields(hs, files, kp, name);
    ParseInvertsEncode(v, "");
    hide Encode, Parse, Info, Layers, Lookup;
    assert Encode(v) + "" == Encode(v);
    var e := stored.entries;
    var url := Entry("url-list", List([Text(webSeed)]));
    assert v.entries == [e[0], e[1], url];
    LookupThree(e[0], e[1], url, "info");
    LookupThree(e[0], e[1], url, "piece layers");
    LookupThree(e[0], e[1], url, "url-list");
    SaysByFields(hs, files, kp, name, stored, v);
  }

  lemma SaysByFields(hs: Hashing, files: seq<File>, kp: nat, name: string, a: Bencode, b: Bencode)
    requires Says(hs, files, kp, name, a)
    requires Field(a, "info") == Field(b, "info") && Field(a, "piece layers") == Field(b, "piece layers")
    ensures Says(hs, files, kp, name, b)
  {
  }

  /** Adding a web seed to a stored torrent. */
  method WithWebSeed(torrent: string, webSeed: string, ghost hs: Hashing, ghost files: seq<File>, ghost kp: nat, ghost name: string)
    returns (r: string)
    requires torrent == Encode(Stored(hs, files, kp, name))
    ensures r == Encode(Served(hs, files, kp, name, webSeed))
    ensures exists v :: Parse(r) == Some((v, "")) && Says(hs, files, kp, name, v)
                        && Field(v, "url-list") == Some(List([Text(webSeed)]))
  {
    hide Encode, Stored, Served, Says, Parse, Field;
    ServedIsEncoded(hs, files, kp, name, webSeed);
    ServedSays(hs, files, kp, name, webSeed);
    r := torrent[..|torrent| - 1];
    r := r + "8:url-listl";
    r := r + Encode(Text(webSeed));
    r := r + "ee";
  }
}
