/**
  What an operator has published, and the timeline that holds it: which keys
  are in the document store, and what each of them leads to.
*/
module PublishedLogs {
  import opened Wrappers
  import opened Symbols
  import opened Merkle
  import opened Notes
  import opened Checkpoints
  import opened Tiles
  import opened Timeline
  import opened Decimal

  function SignedCheckpoint(c: Checkpoint, signer: Signer): Option<Bytes> {
    match MarshalText(c)
    case None => None
    case Some(text) => NoteSign(Note(text, [], []), signer)
  }

  /** The message of the checkpoint that covers exactly these records. */
  function CheckpointMessage(origin: Bytes, signer: Signer, d: seq<Bytes>): Option<Bytes> {
    SignedCheckpoint(Checkpoint(origin, Tree(|d|, TreeHash(d))), signer)
  }

  /**
    The records appended so far, the tiles written so far, and the sizes at
    which a checkpoint was published.
  */
  datatype Log = Log(origin: Bytes, signer: Signer, records: seq<Bytes>, tiles: iset<Tile>, sizes: set<nat>) {
    ghost predicate Valid() {
      && |records| <= INT64_MAX
      && (forall t :: t in tiles ==> ValidTile(t) && InTree(t, |records|))
      && (forall s :: s in sizes ==>
            s <= |records| && Message(s).Some? && forall t :: IsTile(t, s) ==> t in tiles)
    }

    function Message(s: nat): Option<Bytes>
      requires s <= |records|
    {
      CheckpointMessage(origin, signer, records[..s])
    }

    ghost predicate Holds(item: Item) {
      match item
      case EntryItem(i) => i < |records|
      case CheckpointItem(s) => s in sizes
      case TileItem(t) => t in tiles
    }

    ghost function Content(item: Item): Bytes
      requires Valid() && Holds(item)
    {
      match item
      case EntryItem(i) => records[i]
      case CheckpointItem(s) => Message(s).value
      case TileItem(t) => TileData(records, t)
    }
  }

  /** The document holds exactly the log's items, each leading to its own content. */
  ghost predicate IsTimeline(doc: Doc, blobs: set<Bytes>, log: Log)
    requires log.Valid()
  {
    TimelineKeys(doc) && forall item :: ValidItem(item) ==> Kept(doc, blobs, log, item)
  }

  ghost predicate Kept(doc: Doc, blobs: set<Bytes>, log: Log, item: Item)
    requires log.Valid() && ValidItem(item)
  {
    && (KeyOf(item) in doc <==> log.Holds(item))
    && (log.Holds(item) ==>
          && doc[KeyOf(item)] == Record(log.Content(item), |log.Content(item)|)
          && log.Content(item) in blobs)
  }

  /** The new log holds the old log's items unchanged, and one more. */
  ghost predicate AddsOne(a: Log, b: Log, item: Item, content: Bytes) {
    && a.Valid() && b.Valid() && ValidItem(item)
    && (forall x :: ValidItem(x) ==> (b.Holds(x) <==> a.Holds(x) || x == item))
    && (forall x :: ValidItem(x) && a.Holds(x) && x != item ==> b.Content(x) == a.Content(x))
    && b.Holds(item) && b.Content(item) == content
  }

  /** Putting an item's content under its key keeps the timeline exact, although inserts delete. */
  lemma PutKeepsTimeline(doc: Doc, blobs: set<Bytes>, a: Log, b: Log, item: Item, content: Bytes)
    requires AddsOne(a, b, item, content) && IsTimeline(doc, blobs, a)
    ensures IsTimeline(DocPut(doc, KeyOf(item), Record(content, |content|)), blobs + {content}, b)
  {
    PutIsUpdate(doc, item, Record(content, |content|));
    forall x | ValidItem(x)
      ensures Kept(DocPut(doc, KeyOf(item), Record(content, |content|)), blobs + {content}, b, x)
    {
      if x != item {
        KeysDiffer(x, item);
        KeptByUpdate(doc, blobs, a, b, x, KeyOf(item), content);
      }
    }
  }

  lemma KeptByUpdate(doc: Doc, blobs: set<Bytes>, a: Log, b: Log, x: Item, key: Bytes, content: Bytes)
    requires a.Valid() && b.Valid() && ValidItem(x) && Kept(doc, blobs, a, x) && key != KeyOf(x)
    requires (a.Holds(x) <==> b.Holds(x)) && (a.Holds(x) ==> a.Content(x) == b.Content(x))
    ensures Kept(doc[key := Record(content, |content|)], blobs + {content}, b, x)
  {
  }

  lemma AppendAdds(a: Log, record: Bytes)
    requires a.Valid() && |a.records| < INT64_MAX
    ensures AddsOne(a, a.(records := a.records + [record]), EntryItem(|a.records|), record)
  {
    var b := a.(records := a.records + [record]);
    forall s: nat | s <= |a.records| ensures b.records[..s] == a.records[..s] {
    }
    forall t | t in a.tiles ensures InTree(t, |b.records|) && TileData(b.records, t) == TileData(a.records, t) {
      TileDataOfLonger(a.records, b.records, t);
    }
  }

  lemma TileAdds(a: Log, t: Tile)
    requires a.Valid() && ValidTile(t) && InTree(t, |a.records|)
    ensures AddsOne(a, a.(tiles := a.tiles + iset{t}), TileItem(t), TileData(a.records, t))
  {
  }

  lemma CheckpointAdds(a: Log, s: nat)
    requires a.Valid() && s <= |a.records| && a.Message(s).Some? && forall t :: IsTile(t, s) ==> t in a.tiles
    ensures AddsOne(a, a.(sizes := a.sizes + {s}), CheckpointItem(s), a.Message(s).value)
  {
  }

  // ----------------------------------------------------------- reading it back

  /** A document and a blob store. */
  datatype Source = Source(doc: Doc, blobs: set<Bytes>) {
    /** A timeline key's content, if the key and the blob are there and the length agrees. */
    function Blob(key: Bytes): Option<Bytes> {
      if key !in doc || doc[key].blob !in blobs || |doc[key].blob| != doc[key].length then None
      else Some(doc[key].blob)
    }

    /** A key leads to a content exactly if its record names that blob with its length and the blob is there. */
    lemma BlobExactly(key: Bytes, content: Bytes)
      ensures Blob(key) == Some(content) <==>
                key in doc && doc[key] == Record(content, |content|) && content in blobs
    {
    }

    /** ReadTiles: every asked tile must be there with its exact width. */
    method ReadTiles(tiles: seq<Tile>) returns (r: Option<seq<Bytes>>)
      requires forall t :: t in tiles ==> ValidTile(t)
      ensures r.Some? <==> forall t :: t in tiles ==> Blob(TileKey(t)).Some? && |Blob(TileKey(t)).value| == t.W
      ensures r.Some? ==> |r.value| == |tiles|
      ensures r.Some? ==> forall i :: 0 <= i < |tiles| ==> Blob(TileKey(tiles[i])) == Some(r.value[i])
    {
      var data: seq<Bytes> := [];
      for i := 0 to |tiles|
        invariant |data| == i
        invariant forall j :: 0 <= j < i ==> Blob(TileKey(tiles[j])) == Some(data[j]) && |data[j]| == tiles[j].W
      {
        var b := Blob(TileKey(tiles[i]));
        if b.None? || |b.value| != tiles[i].W {
          assert tiles[i] in tiles;
          return None;
        }
        data := data + [b.value];
      }
      r := Some(data);
    }

    /** latestCheckpoint, with the document's keys listed in any order. */
    method LatestCheckpoint(keys: seq<Bytes>) returns (r: Option<Bytes>)
      requires forall k :: k in keys <==> k in doc
      ensures (exists k :: k in doc && CHECKPOINT <= k) ==>
                exists k :: && k in doc && CHECKPOINT <= k && r == Blob(k)
                            && forall j :: j in doc && CHECKPOINT <= j ==> !Less(k, j)
      ensures (forall k :: k in doc ==> !(CHECKPOINT <= k)) ==> r == None
    {
      var latest: Bytes := [];
      for i := 0 to |keys|
        invariant latest == [] || (latest in doc && CHECKPOINT <= latest)
        invariant forall j :: 0 <= j < i && CHECKPOINT <= keys[j] ==> latest != [] && !Less(latest, keys[j])
      {
        if CHECKPOINT <= keys[i] && Less(latest, keys[i]) {
          ghost var was := latest;
          latest := keys[i];
          forall j | 0 <= j < i && CHECKPOINT <= keys[j] ensures !Less(latest, keys[j]) {
            LessNotBelow(was, latest, keys[j]);
          }
        }
        LessIrreflexive(latest);
      }
      forall j | j in doc && CHECKPOINT <= j ensures latest != [] && !Less(latest, j) {
        assert j in keys;
      }
      if latest == [] {
        return None;
      }
      r := Blob(latest);
    }
  }

  lemma {:induction false} LessIrreflexive(a: Bytes)
    ensures !Less(a, a)
  {
    if a != [] {
      LessIrreflexive(a[1..]);
    }
  }

  /** If b is above a, then nothing not above a is above b. */
  lemma {:induction false} LessNotBelow(a: Bytes, b: Bytes, c: Bytes)
    requires Less(a, b) && !Less(a, c)
    ensures !Less(b, c)
  {
    if a != [] && b != [] && c != [] && a[0] == b[0] == c[0] {
      LessNotBelow(a[1..], b[1..], c[1..]);
    }
  }
}
