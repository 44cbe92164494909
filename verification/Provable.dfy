/** What a reader finds in an operator's timeline. */
module Provable {
  // Every checkpoint ever published stays there with all the tiles and entries
  // its proofs need.

  import opened Wrappers
  import opened Symbols
  import opened Merkle
  import opened Lines
  import opened Notes
  import opened Checkpoints
  import opened StoredHashes
  import opened Tiles
  import opened Timeline
  import opened PublishedLogs
  import opened Operators
  import opened Readers
  import opened Clients
  import opened Decimal

  function SourceOf(s: State): Source { Source(s.doc, s.blobs) }

  lemma ItemServed(s: State, log: Log, item: Item)
    requires Consistent(s, log) && ValidItem(item) && log.Holds(item)
    ensures SourceOf(s).Blob(KeyOf(item)) == Some(log.Content(item))
  {
    assert Kept(s.doc, s.blobs, log, item);
  }

  /** A tile of a published size is served as it was when that size was the whole log. */
  lemma TileServed(s: State, log: Log, n: nat, t: Tile)
    requires Consistent(s, log) && n in log.sizes && IsTile(t, n)
    ensures ValidTile(t) && InTree(t, |log.records[..n]|)
    ensures SourceOf(s).Blob(TileKey(t)) == Some(TileData(log.records[..n], t))
  {
    TileInTree(t, n);
    ItemServed(s, log, TileItem(t));
    TileDataOfLonger(log.records[..n], log.records, t);
  }

  /** The hashes in part of a tile's bytes; None if they are not all there. */
  function TilePart(data: Bytes, start: nat, count: nat): Option<seq<Hash>> {
    if start + count > |data| || exists i :: start <= i < start + count && !data[i].Digest? then None
    else Some(seq(count, i requires 0 <= i < count => data[start + i].h))
  }

  lemma TilePartOfData(d: seq<Bytes>, t: Tile, start: nat, count: nat)
    requires InTree(t, |d|) && start + count <= t.W
    ensures TilePart(TileData(d, t), start, count) == Some(TileHashes(d, t)[start..start + count])
  {
    var data, hs := TileData(d, t), TileHashes(d, t)[start..start + count];
    var part := TilePart(data, start, count);
    assert forall i :: 0 <= i < t.W ==> data[i] == Digest(TileHashes(d, t)[i]);
    assert part.Some? && |part.value| == |hs|;
    forall i | 0 <= i < |hs| ensures part.value[i] == hs[i] {
      assert part.value[i] == data[start + i].h;
    }
    assert part.value == hs;
  }

  /** What a reader does with a tile: take hashes out of its bytes and join them. */
  function HashFromTile(data: Bytes, start: nat, j: nat): Option<Hash> {
    var part := TilePart(data, start, Pow2(j));
    if part.None? then None else Some(Joined(part.value, j))
  }

  /** Joining hashes out of the tile that a reader asks for gives the hash it wants. */
  lemma TileGivesHash(d: seq<Bytes>, level: nat, m: nat)
    requires Complete(|d|, level, m)
    ensures var (t, start, _) := TileFor(level, m, |d|);
            && IsTile(t, |d|) && InTree(t, |d|)
            && HashFromTile(TileData(d, t), start, level % 8) == Some(Subtree(d, level, m))
  {
    var (t, start, count) := TileFor(level, m, |d|);
    TilesHoldEveryHash(d, level, m);
    TilePartOfData(d, t, start, count);
  }

  lemma RecordsBelow(s: State, log: Log, n: nat)
    requires Consistent(s, log) && n in log.sizes
    ensures n <= |log.records| <= INT64_MAX && |log.records[..n]| == n
  {
  }

  /**
    Any hash that a proof about a published size is made of can be read from the
    timeline: the tile the reader asks for is there, with its exact width, and
    joining its hashes gives the section 2.1 hash of those records.
  */
  lemma OldCheckpointsProvable(s: State, log: Log, n: nat, level: nat, m: nat)
    requires Consistent(s, log) && n in log.sizes && Complete(n, level, m)
    ensures n <= |log.records|
    ensures var (t, start, _) := TileFor(level, m, n);
            && ValidTile(t)
            && SourceOf(s).Blob(TileKey(t)).Some?
            && |SourceOf(s).Blob(TileKey(t)).value| == t.W
            && HashFromTile(SourceOf(s).Blob(TileKey(t)).value, start, level % 8)
               == Some(Subtree(log.records[..n], level, m))
    ensures Shl(m, level) <= Shl(m + 1, level) <= n
    ensures Subtree(log.records[..n], level, m) == TreeHash(log.records[..n][Shl(m, level)..Shl(m + 1, level)])
  {
    RecordsBelow(s, log, n);
    var d := log.records[..n];
    var (t, start, count) := TileFor(level, m, n);
    TileGivesHash(d, level, m);
    TileServed(s, log, n, t);
    SubtreeIsTreeHash(d, level, m);
  }

  /** Each record of a published size is served under its key and provable in that size's root. */
  lemma OldEntriesProvable(s: State, log: Log, n: nat, i: nat)
    requires Consistent(s, log) && n in log.sizes && i < n
    ensures i < |log.records| && n <= |log.records| <= INT64_MAX
    ensures SourceOf(s).Blob(EntryKey(i)) == Some(log.records[i])
    ensures exists p :: CheckRecord(p, n, TreeHash(log.records[..n]), i, Leaf(log.records[i]))
  {
    ItemServed(s, log, EntryItem(i));
    LeafAtOfTree(log.records[..n], i);
    CheckRecordExactly(n, TreeHash(log.records[..n]), i, Leaf(log.records[i]));
  }

  /** Any two published sizes have a consistency proof between them. */
  lemma PublishedSizesConsistent(s: State, log: Log, m: nat, n: nat)
    requires Consistent(s, log) && m in log.sizes && n in log.sizes && 0 < m <= n
    ensures n <= |log.records|
    ensures exists p :: CheckTree(p, n, TreeHash(log.records[..n]), m, TreeHash(log.records[..m]))
  {
    var d := log.records[..n];
    assert d[..m] == log.records[..m];
    PrefixRootOfTree(d, m);
    CheckTreeExactly(n, TreeHash(d), m, TreeHash(log.records[..m]));
  }

  /** A reader of a tree of size n: it fetches the tile a hash is in, checks its width and joins its hashes. */
  function TileLookup(src: Source, n: nat): Lookup {
    (level: nat, m: nat) =>
      var (t, start, _) := TileFor(level, m, n);
      var data := if ValidTile(t) then src.Blob(TileKey(t)) else None;
      if data.None? || |data.value| != t.W then None else HashFromTile(data.value, start, level % 8)
  }

  /** A reader of a published size finds every hash of that tree. */
  lemma SourceReads(s: State, log: Log, n: nat)
    requires Consistent(s, log) && n in log.sizes
    ensures n <= |log.records| && Supplies(TileLookup(SourceOf(s), n), log.records[..n])
  {
    RecordsBelow(s, log, n);
    forall level: nat, m: nat | Complete(n, level, m)
      ensures TileLookup(SourceOf(s), n)(level, m) == Some(Subtree(log.records[..n], level, m))
    {
      OldCheckpointsProvable(s, log, n, level, m);
    }
  }

  ghost predicate HeadOf(c: Checkpoint, log: Log, n: nat)
    requires n <= |log.records|
  {
    c.tree == Tree(n, TreeHash(log.records[..n]))
  }

  /**
    A client whose head is any published checkpoint reads every entry of it from
    the operator's timeline: the record it finds there and the proof it puts
    together from the tiles pass its check.
  */
  lemma OwnEntriesRead(s: State, log: Log, n: nat, i: nat, h: Head)
    requires Consistent(s, log) && n in log.sizes && i < n
    requires n <= |log.records| && h.Head? && HeadOf(h.cp, log, n)
    ensures i <= INT64_MAX
    ensures EntrySpec(h, i, SourceOf(s).Blob(EntryKey(i)), ReadRecordProof(TileLookup(SourceOf(s), n), 0, n, i))
            == Ok(log.records[i])
  {
    OldEntriesProvable(s, log, n, i);
    SourceReads(s, log, n);
    ProveRecord(TileLookup(SourceOf(s), n), log.records[..n], i);
  }

  /** And it moves on from any published checkpoint to any larger one. */
  lemma OwnUpdatesAdvance(s: State, log: Log, m: nat, n: nat, h: Head, cp: Checkpoint, msg: Bytes)
    requires Consistent(s, log) && n in log.sizes && m < n
    requires n <= |log.records| && h.Head? && HeadOf(h.cp, log, m) && HeadOf(cp, log, n)
    ensures var proof := if m == 0 then None else ReadTreeProof(TileLookup(SourceOf(s), n), 0, n, m);
            AdvanceSpec(h, cp, msg, proof) == Outcome(Head(msg, cp), Ok(cp))
  {
    SourceReads(s, log, n);
    var d := log.records[..n];
    assert d[..m] == log.records[..m];
    if m > 0 {
      ProveTree(TileLookup(SourceOf(s), n), d, m);
    }
  }

  /** Every checkpoint key in the document is of a published size, and the last one is there. */
  lemma CheckpointKeys(s: State, log: Log, key: Bytes)
    requires Consistent(s, log) && key in s.doc && CHECKPOINT <= key
    ensures s.published in log.sizes && s.published <= INT64_MAX && CheckpointKey(s.published) in s.doc
    ensures exists n: nat :: n <= s.published && key == CheckpointKey(n)
    ensures SourceOf(s).Blob(CheckpointKey(s.published)) == s.checkpoint
  {
    var item :| ValidItem(item) && KeyOf(item) == key;
    CheckpointKeyForm(item);
    assert Kept(s.doc, s.blobs, log, item);
    assert item.size in log.sizes && key == CheckpointKey(item.size);
    ItemServed(s, log, CheckpointItem(s.published));
  }

  /** The largest checkpoint key in the document is that of the last published size. */
  lemma LatestIsLastPublished(s: State, log: Log, key: Bytes)
    requires Consistent(s, log)
    requires key in s.doc && CHECKPOINT <= key
    requires forall j :: j in s.doc && CHECKPOINT <= j ==> !Less(key, j)
    ensures s.published in log.sizes && SourceOf(s).Blob(key) == s.checkpoint
  {
    CheckpointKeys(s, log, key);
    var n: nat :| n <= s.published && key == CheckpointKey(n);
    LargestKey(s.doc, n, s.published);
  }

  lemma LargestKey(doc: Doc, n: nat, last: nat)
    requires n <= last <= INT64_MAX && CheckpointKey(last) in doc
    requires forall j :: j in doc && CHECKPOINT <= j ==> !Less(CheckpointKey(n), j)
    ensures n == last
  {
    CheckpointKeyOrder(n, last);
    KeyHasForm(last);
  }

  lemma KeyHasForm(n: nat)
    requires n <= INT64_MAX
    ensures CHECKPOINT <= CheckpointKey(n)
  {
  }

  lemma CheckpointKeyForm(item: Item)
    requires ValidItem(item) && CHECKPOINT <= KeyOf(item)
    ensures item.CheckpointItem?
  {
    KeyStarts(item);
    assert CHECKPOINT[0] == Chr('c');
  }

  lemma CleanCheckpointText(c: Checkpoint)
    requires ValidOrigin(c.origin)
    ensures Clean(MarshalText(c).value) <==> Clean(c.origin)
  {
    var text := MarshalText(c).value;
    var size := Decimal.Print(c.tree.n);
    JoinThree(c.origin, size, [Digest(c.tree.hash)]);
    assert forall i :: 0 <= i < |size| ==> size[i] in size && IsDigit(size[i]);
    assert forall i :: 0 <= i < |c.origin| ==> text[i] == c.origin[i];
    if Clean(c.origin) {
      assert Clean(size) && Clean([Digest(c.tree.hash)]) && Clean([NL]);
      CleanConcat(c.origin, [NL]);
      CleanConcat(c.origin + [NL], size);
      CleanConcat(c.origin + [NL] + size, [NL]);
      CleanConcat(c.origin + [NL] + size + [NL], [Digest(c.tree.hash)]);
      CleanConcat(c.origin + [NL] + size + [NL] + [Digest(c.tree.hash)], [NL]);
    }
  }

  lemma CleanConcat(a: Bytes, b: Bytes)
    requires Clean(a) && Clean(b)
    ensures Clean(a + b)
  {
  }

  /**
    A published checkpoint opens under the operator's key exactly when neither
    the origin nor the signer's name holds a control character, which
    NewOperator does not check; and it then says the size and the root.
  */
  lemma PublishedOpensExactly(c: Checkpoint, signer: Signer, msg: Bytes)
    requires SignedCheckpoint(c, signer) == Some(msg) && c.tree.n <= INT64_MAX
    ensures var note := NoteOpen(msg, [Verifier(signer.id, signer.key)]);
            && (note.Some? <==> Clean(c.origin) && Clean(signer.id.name))
            && (note.Some? ==> Says(note.value, c))
  {
    MarshalEndsInNewline(c);
    SignOne(MarshalText(c).value, signer, msg);
    SignedCheckpointOpens(c, MarshalText(c).value, msg, Verifier(signer.id, signer.key));
  }

  lemma SignedCheckpointOpens(c: Checkpoint, text: Bytes, msg: Bytes, v: Verifier)
    requires Some(text) == MarshalText(c) && c.tree.n <= INT64_MAX && ValidName(v.id.name)
    requires text != [] && text[|text| - 1] == NL && msg == Assemble(text, [SigLine(v.id, Sig(v.key, text))])
    ensures NoteOpen(msg, [v]).Some? <==> Clean(c.origin) && Clean(v.id.name)
    ensures NoteOpen(msg, [v]).Some? ==> Says(NoteOpen(msg, [v]).value, c)
  {
    CleanCheckpointText(c);
    SignedTextOpens(text, v);
    if NoteOpen(msg, [v]).Some? {
      SaysIfText(NoteOpen(msg, [v]).value, c);
    }
  }

  /** The note's text is that of this checkpoint, and parses as it. */
  ghost predicate Says(note: Note, c: Checkpoint) {
    Some(note.text) == MarshalText(c) && ParseCheckpoint(note.text) == Some(c)
  }

  lemma SaysIfText(note: Note, c: Checkpoint)
    requires Some(note.text) == MarshalText(c) && c.tree.n <= INT64_MAX
    ensures Says(note, c)
  {
    ParseMarshal(c);
  }

  lemma SignOne(text: Bytes, signer: Signer, msg: Bytes)
    requires NoteSign(Note(text, [], []), signer) == Some(msg)
    ensures msg == Assemble(text, [SigLine(signer.id, Sig(signer.key, text))])
    ensures ValidName(signer.id.name) && text != [] && text[|text| - 1] == NL
  {
    var n := Note(text, [], []);
    assert n.sigs + n.unverified == [];
    assert DropBy([], signer.id) == [];
    assert SignedLines(n, signer) == [SigLine(signer.id, Sig(signer.key, text))];
  }

  /** A text signed by one key opens under that key exactly when it is clean and the name is. */
  lemma SignedTextOpens(text: Bytes, v: Verifier)
    requires text != [] && text[|text| - 1] == NL && ValidName(v.id.name)
    ensures var note := NoteOpen(Assemble(text, [SigLine(v.id, Sig(v.key, text))]), [v]);
            && (note.Some? <==> Clean(text) && Clean(v.id.name))
            && (note.Some? ==> note.value.text == text)
  {
    var l := SigLine(v.id, Sig(v.key, text));
    if Clean(text) && Clean(v.id.name) {
      AssembleParts(text, [l]);
      OneLineOpens(text, v);
    } else {
      if Clean(Assemble(text, [l])) {
        CleanPieces(text, l);
      }
    }
  }

  lemma OneLineOpens(text: Bytes, v: Verifier)
    ensures var lines := [SigLine(v.id, Sig(v.key, text))];
            OpenLines(text, lines, [v]).Some? && OpenLines(text, lines, [v]).value.text == text
  {
    var l := SigLine(v.id, Sig(v.key, text));
    assert VerifiedLines([l], [v], {}) == [l];
    assert FindVerifier([v], v.id) == Some(v);
  }

  /** A clean message has a clean text and clean names in it. */
  lemma CleanPieces(text: Bytes, l: SigLine)
    requires Clean(Assemble(text, [l]))
    ensures Clean(text) && Clean(l.id.name)
  {
    var f := FormatSigLine(l);
    var name := l.id.name;
    assert FormatSigLines([l]) == [f];
    assert JoinLines([f]) == f + [NL] + JoinLines([]);
    assert Assemble(text, [l]) == (text + [NL]) + (f + [NL]);
    CleanParts(text + [NL], f + [NL]);
    CleanParts(text, [NL]);
    CleanParts(f, [NL]);
    assert f == (SIG_PREFIX + name) + [SPACE, SigBlock(l.id.hash, l.sig)];
    CleanParts(SIG_PREFIX + name, [SPACE, SigBlock(l.id.hash, l.sig)]);
    CleanParts(SIG_PREFIX, name);
  }

  lemma CleanParts(a: Bytes, b: Bytes)
    requires Clean(a + b)
    ensures Clean(a) && Clean(b)
  {
    assert forall i :: 0 <= i < |a| ==> (a + b)[i] == a[i];
    assert forall i :: 0 <= i < |b| ==> (a + b)[|a| + i] == b[i];
  }
}
