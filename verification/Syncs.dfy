/**
  The sync stream: what the sender writes for a traversal, and how the receiver
  walks tables it is still filling from that stream.
*/
module Syncs {
  import opened Wrappers
  import opened Seqs
  import opened Dags
  import opened Traversals

  /**
    One item of the stream: a header, followed for DataItem by an encoded blob
    (None if that is cut short or malformed).  Junk is any other header.
  */
  datatype Item = HashItem(hash: BlobHash) | DataItem(hash: BlobHash, body: Option<Block>) | Junk

  // ------------------------------------------------------------------ sending

  datatype Written = Written(items: seq<Item>, ok: bool)

  /** The items for a list of CIDs, up to the first that cannot be served. */
  function Write(cids: seq<Cid>, t: TableData, blobs: set<Block>, inline: Inline): Written {
    if cids == [] then Written([], true)
    else if cids[0] !in t.hashes then Written([], false)
    else
      var h := t.hashes[cids[0]];
      if Inlined(inline, cids[0]) && (!h.HashOf? || h.data !in blobs) then Written([DataItem(h, None)], false)
      else
        var item := if Inlined(inline, cids[0]) then DataItem(h, Some(h.data)) else HashItem(h);
        var rest := Write(cids[1..], t, blobs, inline);
        Written([item] + rest.items, rest.ok)
  }

  function Response(opts: TraversalOpts, inline: Inline, t: TableData, blobs: set<Block>): Written {
    match TraversalOf(t.links, opts)
    case None => Written([], false)
    case Some(cids) => Write(cids, t, blobs, inline)
  }

  class MemStore {
    var blobs: set<Block>

    constructor ()
      ensures blobs == {}
    {
      blobs := {};
    }

    /** Open and read a blob. */
    method Get(h: BlobHash) returns (r: Option<Block>)
      ensures r == if h.HashOf? && h.data in blobs then Some(h.data) else None
    {
      r := if h.HashOf? && h.data in blobs then Some(h.data) else None;
    }

    method Add(data: Block) returns (h: BlobHash)
      modifies this
      ensures blobs == old(blobs) + {data} && h == HashOf(data)
    {
      blobs := blobs + {data};
      h := HashOf(data);
    }
  }

  method WriteSyncResponse(opts: TraversalOpts, inline: Inline, tables: Tables, store: MemStore) returns (w: Written)
    ensures w == Response(opts, inline, tables.Data(), store.blobs)
  {
    var cids := TraversalCids(opts, tables);
    if cids.None? {
      return Written([], false);
    }
    var items: seq<Item> := [];
    ghost var all := Write(cids.value, tables.Data(), store.blobs, inline);
    assert cids.value[0..] == cids.value;
    Units(all.items);
    for i := 0 to |cids.value|
      invariant var rest := Write(cids.value[i..], tables.Data(), store.blobs, inline);
                all == Written(items + rest.items, rest.ok)
    {
      var c := cids.value[i];
      assert cids.value[i..][1..] == cids.value[i + 1..];
      ghost var later := Write(cids.value[i + 1..], tables.Data(), store.blobs, inline).items;
      if c !in tables.hashes {
        Units(items);
        return Written(items, false);
      }
      var hash := tables.hashes[c];
      if Inlined(inline, c) {
        var data := store.Get(hash);
        if data.None? {
          return Written(items + [DataItem(hash, None)], false);
        }
        Assoc(items, [DataItem(hash, data)], later);
        items := items + [DataItem(hash, data)];
      } else {
        Assoc(items, [HashItem(hash)], later);
        items := items + [HashItem(hash)];
      }
    }
    Units(items);
    w := Written(items, true);
  }

  // ---------------------------------------------------------------- receiving

  datatype Local = Local(tables: TableData, blobs: set<Block>) {
    function Put(c: Cid, h: BlobHash, ls: seq<Cid>): Local { Local(tables.Put(c, h, ls), blobs) }
    function Add(data: Block): Local { Local(tables, blobs + {data}) }
  }

  datatype One = One(local: Local, rest: seq<Item>, ok: bool)

  /** readOneResponse.  The end of the stream where a header should be is success. */
  function ReadOne(l: Local, items: seq<Item>, c: Cid): One {
    if items == [] then One(l, [], true)
    else
      match items[0]
      case Junk => One(l, items[1..], false)
      case HashItem(h) => One(l.Put(c, h, []), items[1..], true)
      case DataItem(h, body) =>
        if body.None? || HashOf(body.value) != h || !Matches(c, body.value) then One(l, items[1..], false)
        else
          match ExtractLinks(c, body.value)
          case None => One(l.Add(body.value), items[1..], false)
          case Some(ls) => One(l.Add(body.value).Put(c, h, ls), items[1..], true)
  }

  /** One included CID and the item that was read for it; None at the end of the stream. */
  datatype Step = Step(cid: Cid, item: Option<Item>)

  datatype Received = Received(local: Local, rest: seq<Item>, ok: bool, log: seq<Step>)

  /** readFullSyncResponse, with the pending CIDs topmost first. */
  function ReadFull(l: Local, items: seq<Item>, pending: seq<Cid>, seen: set<Cid>, f: Filter): Received
    decreases |items|, |l.tables.links.Keys - seen|, |pending|
  {
    if pending == [] then Received(l, items, true, [])
    else if pending[0] in seen then ReadFull(l, items, pending[1..], seen, f)
    else
      var c := pending[0];
      var one := if Include(f, c) then ReadOne(l, items, c) else One(l, items, true);
      if !one.ok then Received(one.local, one.rest, false, [])
      else
        SmallerRest(l.tables.links.Keys, seen, seen + {c});
        var next := ReadFull(one.local, one.rest, Children(one.local.tables.links, c) + pending[1..], seen + {c}, f);
        if Include(f, c) then next.(log := [Step(c, if items == [] then None else Some(items[0]))] + next.log)
        else next
  }

  /** What a run leaves behind and returns. */
  function Left(r: Received): One { One(r.local, r.rest, r.ok) }

  lemma ReadFullStep(l: Local, items: seq<Item>, c: Cid, rest: seq<Cid>, seen: set<Cid>, f: Filter)
    ensures c in seen ==> ReadFull(l, items, [c] + rest, seen, f) == ReadFull(l, items, rest, seen, f)
    ensures c !in seen ==>
              var one := if Include(f, c) then ReadOne(l, items, c) else One(l, items, true);
              Left(ReadFull(l, items, [c] + rest, seen, f))
              == if one.ok then
                   Left(ReadFull(one.local, one.rest, Children(one.local.tables.links, c) + rest, seen + {c}, f))
                 else one
  {
    assert ([c] + rest)[1..] == rest;
  }

  /** Reading takes an item, or there is none and nothing changes. */
  lemma ReadOneShrinks(l: Local, items: seq<Item>, c: Cid)
    ensures var one := ReadOne(l, items, c);
            |one.rest| < |items| || (items == [] && one == One(l, [], true))
  {
  }

  /** What is read from the network, item by item. */
  class Reader {
    var items: seq<Item>

    constructor (items: seq<Item>)
      ensures this.items == items
    {
      this.items := items;
    }

    method Next() returns (r: Option<Item>)
      modifies this
      ensures old(items) == [] ==> r == None && items == []
      ensures old(items) != [] ==> r == Some(old(items)[0]) && items == old(items)[1..]
    {
      if items == [] {
        return None;
      }
      r := Some(items[0]);
      items := items[1..];
    }
  }

  method ReadOneResponse(r: Reader, tables: Tables, store: MemStore, c: Cid) returns (ok: bool)
    modifies r, tables, store
    ensures One(Local(tables.Data(), store.blobs), r.items, ok)
            == old(ReadOne(Local(tables.Data(), store.blobs), r.items, c))
  {
    var item := r.Next();
    if item.None? {
      return true;
    }
    match item.value
    case Junk => return false;
    case HashItem(h) =>
      tables.Put(c, h, []);
      return true;
    case DataItem(h, body) =>
      if body.None? || HashOf(body.value) != h {
        return false;
      }
      if !Matches(c, body.value) {
        return false;
      }
      var hash := store.Add(body.value);
      if hash != h {
        return false;
      }
      var links := ExtractLinks(c, body.value);
      if links.None? {
        return false;
      }
      tables.Put(c, hash, links.value);
      return true;
  }

  method ReadFullSyncResponse(r: Reader, tables: Tables, store: MemStore, opts: FullOpts) returns (ok: bool)
    modifies r, tables, store
    ensures One(Local(tables.Data(), store.blobs), r.items, ok)
            == old(Left(ReadFull(Local(tables.Data(), store.blobs), r.items,
                                 [opts.root], opts.Visited(), opts.TheFilter())))
  {
    var filter := FILTER_ALL;
    if opts.filter.Some? {
      filter := opts.filter.value;
    }
    var visited := set c | c in opts.visited;
    var stack := [opts.root];
    assert TopFirst(stack) == [opts.root];
    ghost var all := Left(ReadFull(Local(tables.Data(), store.blobs), r.items, TopFirst(stack), visited, filter));
    while stack != []
      invariant Left(ReadFull(Local(tables.Data(), store.blobs), r.items, TopFirst(stack), visited, filter)) == all
      decreases |r.items|, |tables.links.Keys - visited|, |stack|
    {
      var c := stack[|stack| - 1];
      ghost var seen := visited;
      stack := stack[..|stack| - 1];
      ReadFullStep(Local(tables.Data(), store.blobs), r.items, c, TopFirst(stack), visited, filter);
      if c in visited {
        continue;
      }
      visited := visited + {c};
      SmallerRest(tables.links.Keys, seen, visited);
      if Include(filter, c) {
        ReadOneShrinks(Local(tables.Data(), store.blobs), r.items, c);
        ok := ReadOneResponse(r, tables, store, c);
        if !ok {
          return;
        }
      }
      Units(TopFirst(stack));
      if Raw(c) {
        continue;
      }
      if c !in tables.links {
        continue;
      }
      stack := PushLinks(stack, tables.links[c]);
    }
    ok := true;
  }

  /** A sequence request names its CIDs, and the receiver reads one item for each. */
  function ReadList(l: Local, items: seq<Item>, cids: seq<Cid>): One
    decreases |cids|
  {
    if cids == [] then One(l, items, true)
    else
      var one := ReadOne(l, items, cids[0]);
      if one.ok then ReadList(one.local, one.rest, cids[1..]) else one
  }

  /** ReadSyncResponse.  Here the full traversal is looked for first. */
  function Receive(l: Local, items: seq<Item>, opts: TraversalOpts): One {
    if opts.full.Some? then
      var full := opts.full.value;
      Left(ReadFull(l, items, [full.root], full.Visited(), full.TheFilter()))
    else if opts.sequence.Some? then ReadList(l, items, opts.sequence.value)
    else One(l, items, false)
  }

  method ReadSyncResponse(r: Reader, tables: Tables, store: MemStore, opts: TraversalOpts) returns (ok: bool)
    modifies r, tables, store
    ensures One(Local(tables.Data(), store.blobs), r.items, ok)
            == old(Receive(Local(tables.Data(), store.blobs), r.items, opts))
  {
    if opts.full.Some? {
      ok := ReadFullSyncResponse(r, tables, store, opts.full.value);
      return;
    }
    var cids := TraversalCids(opts, tables);
    if cids.None? {
      return false;
    }
    ghost var all := ReadList(Local(tables.Data(), store.blobs), r.items, cids.value);
    assert cids.value[0..] == cids.value;
    for i := 0 to |cids.value|
      invariant ReadList(Local(tables.Data(), store.blobs), r.items, cids.value[i..]) == all
    {
      assert cids.value[i..][1..] == cids.value[i + 1..];
      ok := ReadOneResponse(r, tables, store, cids.value[i]);
      if !ok {
        return;
      }
    }
    ok := true;
  }

  /** With both kinds of traversal in a request the sender serves the sequence, and the receiver walks. */
  lemma PreferencesDiffer(cids: seq<Cid>, full: FullOpts, inline: Inline, t: TableData, l: Local, items: seq<Item>)
    ensures var both := TraversalOpts(Some(cids), Some(full));
            && Response(both, inline, t, l.blobs) == Response(TraversalOpts(Some(cids), None), inline, t, l.blobs)
            && Receive(l, items, both) == Receive(l, items, TraversalOpts(None, Some(full)))
  {
  }
}
