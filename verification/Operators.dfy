/** The operator: the single writer of a log. */
module Operators {
  import opened Wrappers
  import opened Symbols
  import opened Merkle
  import opened Notes
  import opened Checkpoints
  import opened StoredHashes
  import opened Tiles
  import opened Timeline
  import opened PublishedLogs
  import opened Decimal

  lemma OddBelowTrailing(n: nat, l: nat)
    requires l < Trailing(n)
    ensures Shr(n, l) % 2 == 1 && Shr(n, l + 1) == Shr(n, l) / 2
    ensures Shr(n, l) >= 1 && Complete(n, l, Shr(n, l) - 1)
  {
    ShrCompletes(n, l);
    ShrStep(n, l);
    ShiftsAdjoint(Shr(n, l), n, l);
  }

  /** A completed subtree is joined from its left neighbour and the one completed before it. */
  lemma BlockStep(d: seq<Bytes>, e: seq<Bytes>, l: nat)
    requires |e| == |d| + 1 && d <= e && l < Trailing(|d|)
    ensures Shr(|d|, l) >= 1 && Complete(|d|, l, Shr(|d|, l) - 1)
    ensures Block(e, |d|)[l + 1] == Node(Subtree(d, l, Shr(|d|, l) - 1), Block(e, |d|)[l])
  {
    var n := |d|;
    OddBelowTrailing(n, l);
    LeafCompletes(|e|, n, l);
    LeafCompletes(|e|, n, l + 1);
    SubtreeOfLonger(d, e, l, Shr(n, l) - 1);
    assert 2 * Shr(n, l + 1) == Shr(n, l) - 1;
  }

  lemma {:induction false} NoTilesOfEmptyTree(t: Tile)
    ensures !IsTile(t, 0)
  {
    ShrOfZero(8 * t.L);
  }

  lemma {:induction false} ShrOfZero(l: nat)
    ensures Shr(0, l) == 0
  {
    if l > 0 {
      ShrOfZero(l - 1);
    }
  }

  lemma FirstOfBlock(d: seq<Bytes>, record: Bytes)
    ensures Block(d + [record], |d|)[0] == Leaf(record)
  {
    assert Shr(|d|, 0) == |d|;
  }

  /** Where the left neighbours of the subtrees completed by leaf n are stored, topmost first. */
  function Neighbours(n: nat): (r: seq<nat>)
    ensures |r| == Trailing(n)
  {
    seq(Trailing(n), k requires 0 <= k < Trailing(n) =>
      var l := Trailing(n) - 1 - k;
      OddBelowTrailing(n, l);
      StoredHashIndex(l, Shr(n, l) - 1))
  }

  lemma NeighbourIndex(n: nat, l: nat)
    requires l < Trailing(n)
    ensures Shr(n, l) >= 1 && Complete(n, l, Shr(n, l) - 1)
    ensures Neighbours(n)[Trailing(n) - 1 - l] == StoredHashIndex(l, Shr(n, l) - 1)
  {
    OddBelowTrailing(n, l);
  }

  lemma NeighbourStored(d: seq<Bytes>, l: nat, h: seq<Hash>)
    requires l < Trailing(|d|) && h == Stored(d)
    ensures var k := Trailing(|d|) - 1 - l;
            && Neighbours(|d|)[k] < |h|
            && Shr(|d|, l) >= 1 && Complete(|d|, l, Shr(|d|, l) - 1)
            && h[Neighbours(|d|)[k]] == Subtree(d, l, Shr(|d|, l) - 1)
  {
    NeighbourIndex(|d|, l);
    StoredAt(d, l, Shr(|d|, l) - 1);
  }

  lemma NeighboursStored(d: seq<Bytes>)
    ensures forall k :: 0 <= k < Trailing(|d|) ==> Neighbours(|d|)[k] < |Stored(d)|
  {
    forall k | 0 <= k < Trailing(|d|) ensures Neighbours(|d|)[k] < |Stored(d)| {
      NeighbourStored(d, Trailing(|d|) - 1 - k, Stored(d));
    }
  }

  /** Where a tile's hashes are stored. */
  function TileIndexes(t: Tile): (r: seq<nat>)
    ensures |r| == t.W
  {
    seq<nat>(t.W, i requires 0 <= i < t.W => StoredHashIndex(8 * t.L, 256 * t.N + i))
  }

  lemma TileStored(d: seq<Bytes>, t: Tile)
    requires InTree(t, |d|)
    ensures forall i :: 0 <= i < t.W ==>
              TileIndexes(t)[i] < |Stored(d)| && Stored(d)[TileIndexes(t)[i]] == TileHashes(d, t)[i]
  {
    forall i | 0 <= i < t.W
      ensures TileIndexes(t)[i] < |Stored(d)| && Stored(d)[TileIndexes(t)[i]] == TileHashes(d, t)[i]
    {
      NodeComplete(|d|, t.L, 256 * t.N + i);
      StoredAt(d, 8 * t.L, 256 * t.N + i);
    }
  }

  /** Where the hashes of the covering subtrees from lo on are stored. */
  function CoverIndexes(lo: nat, size: nat): seq<nat>
    requires lo <= size
    decreases size - lo
  {
    if lo == size then [] else
      var l := TopLevel(size - lo);
      [StoredHashIndex(l, Shr(lo, l))] + CoverIndexes(lo + Pow2(l), size)
  }

  /** Reading these indexes out of h gives these hashes. */
  ghost predicate Reads(h: seq<Hash>, at: seq<nat>, hs: seq<Hash>) {
    |at| == |hs| && forall i :: 0 <= i < |at| ==> at[i] < |h| && h[at[i]] == hs[i]
  }

  lemma ReadsCons(h: seq<Hash>, i: nat, at: seq<nat>, hs: seq<Hash>)
    requires i < |h| && Reads(h, at, hs)
    ensures Reads(h, [i] + at, [h[i]] + hs)
  {
  }

  lemma {:induction false} CoverStored(d: seq<Bytes>, lo: nat, h: seq<Hash>)
    requires lo <= |d| && Startable(lo, |d|) && h == Stored(d)
    ensures Reads(h, CoverIndexes(lo, |d|), Cover(d, lo))
    decreases |d| - lo
  {
    if lo < |d| {
      var l := TopLevel(|d| - lo);
      var mid := lo + Pow2(l);
      CoverFirst(d, lo, l, Shr(lo, l), mid);
      CoverStored(d, mid, h);
      StoredAt(d, l, Shr(lo, l));
      ReadsCons(h, StoredHashIndex(l, Shr(lo, l)), CoverIndexes(mid, |d|), Cover(d, mid));
    }
  }

  // --------------------------------------------------------------- the state

  /** An operator's fields. */
  datatype State = State(
    origin: Bytes, signer: Signer, hashes: seq<Hash>, size: nat, published: nat, checkpoint: Option<Bytes>,
    doc: Doc, blobs: set<Bytes>)

  /** hashes holds every complete subtree's hash, and the document is the log's timeline. */
  ghost predicate Consistent(s: State, log: Log) {
    && log.Valid() && log.origin == s.origin && log.signer == s.signer && ValidOrigin(s.origin)
    && s.size == |log.records| && s.hashes == Stored(log.records)
    && IsTimeline(s.doc, s.blobs, log)
    && PublishedUpTo(s, log)
  }

  /** `published` is the largest published size, and `checkpoint` its message. */
  ghost predicate PublishedUpTo(s: State, log: Log)
    requires log.Valid()
  {
    && s.published <= |log.records|
    && (forall n :: n in log.sizes ==> n <= s.published)
    && (if log.sizes == {} then s.published == 0 && s.checkpoint == None
        else s.published in log.sizes && s.checkpoint == log.Message(s.published))
  }

  function Put(s: State, item: Item, content: Bytes): State
    requires ValidItem(item)
  {
    s.(doc := DocPut(s.doc, KeyOf(item), Record(content, |content|)), blobs := s.blobs + {content})
  }

  lemma AppendKeeps(s: State, log: Log, record: Bytes, added: seq<Hash>)
    requires Consistent(s, log) && s.size < INT64_MAX && added == Block(log.records + [record], s.size)
    ensures Consistent(
              Put(s, EntryItem(s.size), record).(hashes := s.hashes + added, size := s.size + 1),
              log.(records := log.records + [record]))
  {
    var log' := log.(records := log.records + [record]);
    AppendAdds(log, record);
    PutKeepsTimeline(s.doc, s.blobs, log, log', EntryItem(s.size), record);
    assert log'.records[..|log'.records| - 1] == log.records;
    assert log'.records[..s.published] == log.records[..s.published];
  }

  lemma TileKeeps(s: State, log: Log, t: Tile)
    requires Consistent(s, log) && ValidTile(t) && InTree(t, s.size)
    ensures Consistent(Put(s, TileItem(t), TileData(log.records, t)), log.(tiles := log.tiles + iset{t}))
  {
    TileAdds(log, t);
    PutKeepsTimeline(s.doc, s.blobs, log, log.(tiles := log.tiles + iset{t}), TileItem(t), TileData(log.records, t));
  }

  lemma CheckpointKeeps(s: State, log: Log, msg: Bytes)
    requires Consistent(s, log) && Some(msg) == CheckpointMessage(s.origin, s.signer, log.records)
    requires forall t :: IsTile(t, s.size) ==> t in log.tiles
    ensures s.size <= INT64_MAX
    ensures Consistent(
              Put(s, CheckpointItem(s.size), msg).(published := s.size, checkpoint := Some(msg)),
              log.(sizes := log.sizes + {s.size}))
  {
    assert log.records[..s.size] == log.records;
    CheckpointAdds(log, s.size);
    PutKeepsTimeline(s.doc, s.blobs, log, log.(sizes := log.sizes + {s.size}), CheckpointItem(s.size), msg);
  }

  /** The tiles of the last published size are written: new ones are all that is missing. */
  lemma OnlyNewTilesMissing(s: State, log: Log)
    requires Consistent(s, log)
    ensures forall t :: IsTile(t, s.published) ==> t in log.tiles
  {
    if log.sizes == {} {
      forall t ensures !IsTile(t, 0) {
        NoTilesOfEmptyTree(t);
      }
    }
  }

  lemma MarshalEndsInNewline(c: Checkpoint)
    requires ValidOrigin(c.origin)
    ensures var text := MarshalText(c); text.Some? && text.value != [] && text.value[|text.value| - 1] == NL
  {
    JoinedEndsInNewline([c.origin, Decimal.Print(c.tree.n), [Digest(c.tree.hash)]]);
  }

  class Operator {
    const origin: Bytes
    const signer: Signer
    var hashes: seq<Hash>
    var size: nat
    var published: nat
    var checkpoint: Option<Bytes>
    var doc: Doc
    var blobs: set<Bytes>
    ghost var log: Log

    ghost function Fields(): State
      reads this
    {
      State(origin, signer, hashes, size, published, checkpoint, doc, blobs)
    }

    ghost predicate Valid()
      reads this
    {
      Consistent(Fields(), log)
    }

    constructor (origin: Bytes, signer: Signer)
      requires ValidOrigin(origin)
      ensures Valid() && log == Log(origin, signer, [], iset{}, {})
    {
      this.origin, this.signer := origin, signer;
      hashes, size, published, checkpoint, doc, blobs := [], 0, 0, None, map[], {};
      log := Log(origin, signer, [], iset{}, {});
    }

    /** hashReader */
    method ReadHashes(indexes: seq<nat>) returns (r: Option<seq<Hash>>)
      ensures r.Some? <==> forall i :: 0 <= i < |indexes| ==> indexes[i] < |hashes|
      ensures r.Some? ==> Reads(hashes, indexes, r.value)
    {
      var out: seq<Hash> := [];
      for i := 0 to |indexes|
        invariant |out| == i
        invariant forall j :: 0 <= j < i ==> indexes[j] < |hashes| && out[j] == hashes[indexes[j]]
      {
        if indexes[i] >= |hashes| {
          return None;
        }
        out := out + [hashes[indexes[i]]];
      }
      r := Some(out);
    }

    /** tlog.StoredHashes: the hashes that a new record adds.  No read is out of range. */
    method NewHashes(record: Bytes, ghost d: seq<Bytes>) returns (r: Option<seq<Hash>>)
      requires size == |d| && hashes == Stored(d)
      ensures r == Some(Block(d + [record], size))
    {
      ghost var e := d + [record];
      var m := Trailing(size);
      var h := Leaf(record);
      var out := [h];
      NeighboursStored(d);
      var read := ReadHashes(Neighbours(size));
      if read.None? {
        return None;
      }
      FirstOfBlock(d, record);
      for i := 0 to m
        invariant |out| == i + 1 && h == out[i]
        invariant forall j :: 0 <= j <= i ==> out[j] == Block(e, size)[j]
      {
        BlockStep(d, e, i);
        NeighbourStored(d, i, hashes);
        h := Node(read.value[m - 1 - i], h);
        out := out + [h];
      }
      assert out == Block(e, size);
      r := Some(out);
    }

    /** append: it never fails, and stores exactly the hashes of the longer log. */
    method Append(record: Bytes) returns (r: Option<nat>)
      requires Valid() && size < INT64_MAX
      modifies this
      ensures Valid()
      ensures r == Some(old(size)) && size == old(size) + 1
      ensures log == old(log).(records := old(log.records) + [record])
      ensures published == old(published) && checkpoint == old(checkpoint)
    {
      var index := size;
      var added := NewHashes(record, log.records);
      if added.None? {
        return None;
      }
      AppendKeeps(Fields(), log, record, added.value);
      PutTimeline(EntryItem(index), record);
      hashes := hashes + added.value;
      size := size + 1;
      log := log.(records := log.records + [record]);
      r := Some(index);
    }

    /** tlog.ReadTileData over the operator's own hashes. */
    method ReadTileData(t: Tile, ghost d: seq<Bytes>) returns (r: Option<Bytes>)
      requires hashes == Stored(d) && InTree(t, |d|)
      ensures r == Some(TileData(d, t))
    {
      TileStored(d, t);
      var read := ReadHashes(TileIndexes(t));
      if read.None? {
        return None;
      }
      assert read.value == TileHashes(d, t);
      r := Some(Digests(read.value));
    }

    /** tlog.TreeHash over the operator's own hashes: the section 2.1 hash of all records. */
    method RootHash(ghost d: seq<Bytes>) returns (r: Option<Hash>)
      requires size == |d| && hashes == Stored(d)
      ensures r == Some(TreeHash(d))
    {
      if size == 0 {
        return Some(Empty);
      }
      CoverGivesRoot(d);
      CoverStored(d, 0, hashes);
      var read := ReadHashes(CoverIndexes(0, size));
      if read.None? {
        return None;
      }
      assert read.value == Cover(d, 0);
      r := Some(FoldRight(read.value));
    }

    /** putTimeline, after the blob is added. */
    method PutTimeline(item: Item, content: Bytes)
      requires ValidItem(item)
      modifies this`doc, this`blobs
      ensures Fields() == Put(old(Fields()), item, content)
    {
      blobs := blobs + {content};
      doc := DocPut(doc, KeyOf(item), Record(content, |content|));
    }

    method WriteTile(t: Tile) returns (ok: bool)
      requires Valid() && IsTile(t, size)
      modifies this`doc, this`blobs, this`log
      ensures Valid() && ok
      ensures log == old(log).(tiles := old(log).tiles + iset{t})
    {
      TileInTree(t, size);
      var data := ReadTileData(t, log.records);
      if data.None? {
        return false;
      }
      TileKeeps(Fields(), log, t);
      PutTimeline(TileItem(t), data.value);
      log := log.(tiles := log.tiles + iset{t});
      ok := true;
    }

    /** The first part of publish: write the tiles new since the last published size. */
    method WriteTiles() returns (ok: bool)
      requires Valid()
      modifies this`doc, this`blobs, this`log
      ensures Valid() && ok
      ensures log == old(log).(tiles := log.tiles)
      ensures forall t :: t in log.tiles <==> t in old(log.tiles) || IsTile(t, size)
    {
      var tiles := NewTiles(published, size);
      OnlyNewTilesMissing(Fields(), log);
      for i := 0 to |tiles|
        invariant Valid()
        invariant log == old(log).(tiles := log.tiles)
        invariant forall t :: t in log.tiles <==> t in old(log.tiles) || t in tiles[..i]
      {
        var t := tiles[i];
        ok := WriteTile(t);
        if !ok {
          return;
        }
        assert tiles[..i + 1] == tiles[..i] + [t];
      }
      assert tiles[..|tiles|] == tiles;
      ok := true;
    }

    /**
      publish: it fails only when the signer's name is not a key name.  The
      tiles are written all the same; otherwise the new checkpoint is published
      and becomes the current one.
    */
    method Publish() returns (r: Option<Bytes>)
      requires Valid()
      modifies this
      ensures Valid() && size == old(size) && log.records == old(log.records)
      ensures r == CheckpointMessage(origin, signer, log.records)
      ensures r.Some? <==> ValidName(signer.id.name)
      ensures forall t :: t in log.tiles <==> t in old(log.tiles) || IsTile(t, size)
      ensures if r.Some? then published == size && checkpoint == r && log.sizes == old(log.sizes) + {size}
              else published == old(published) && checkpoint == old(checkpoint) && log.sizes == old(log.sizes)
    {
      var ok := WriteTiles();
      var root := RootHash(log.records);
      if !ok || root.None? {
        return None;
      }
      MarshalEndsInNewline(Checkpoint(origin, Tree(size, root.value)));
      var text := MarshalText(Checkpoint(origin, Tree(size, root.value)));
      if text.None? {
        return None;
      }
      var msg := NoteSign(Note(text.value, [], []), signer);
      if msg.None? {
        return None;
      }
      Seal(msg.value);
      r := msg;
    }

    /** The last part of publish: the signed checkpoint becomes the current one. */
    method Seal(msg: Bytes)
      requires Valid() && Some(msg) == CheckpointMessage(origin, signer, log.records)
      requires forall t :: IsTile(t, size) ==> t in log.tiles
      modifies this
      ensures Valid() && size == old(size) && log == old(log).(sizes := old(log).sizes + {size})
      ensures published == size && checkpoint == Some(msg)
    {
      CheckpointKeeps(Fields(), log, msg);
      PutTimeline(CheckpointItem(size), msg);
      published, checkpoint := size, Some(msg);
      log := log.(sizes := log.sizes + {size});
    }
  }
}
