/** What a sync gives, with an honest sender and with any. */
module Lockstep {
  import opened Wrappers
  import opened Seqs
  import opened Dags
  import opened Traversals
  import opened Syncs

  // --------------------------------------------------------- any sender at all

  /** The CID's multihash is one of these bytes. */
  ghost predicate Hashes(c: Cid, data: Block) { exists code :: c.hash == Sum(code, data) }

  /** What the tables and the store hold for a CID after its item was read. */
  ghost predicate Recorded(l: Local, s: Step) {
    match s.item
    case None => true
    case Some(HashItem(h)) => Holds(l.tables, s.cid, h, [])
    case Some(DataItem(h, body)) =>
      && body.Some? && h == HashOf(body.value) && Hashes(s.cid, body.value) && body.value in l.blobs
      && s.cid in l.tables.hashes && l.tables.hashes[s.cid] == h
      && s.cid in l.tables.links && LinksIn(s.cid, body.value, l.tables.links[s.cid])
    case Some(Junk) => false
  }

  ghost predicate Holds(t: TableData, c: Cid, h: BlobHash, ls: seq<Cid>) {
    c in t.hashes && t.hashes[c] == h && c in t.links && t.links[c] == ls
  }

  /** The tables say the same about this CID. */
  ghost predicate SameFor(a: TableData, b: TableData, c: Cid) {
    && (c in a.hashes <==> c in b.hashes) && (c in a.hashes ==> a.hashes[c] == b.hashes[c])
    && (c in a.links <==> c in b.links) && (c in a.links ==> a.links[c] == b.links[c])
  }

  /** A good item: a hash, or data with that hash that matches the CID and, for dag-cbor, decodes. */
  ghost predicate Good(c: Cid, item: Item) {
    match item
    case HashItem(_) => true
    case DataItem(h, body) =>
      && body.Some? && h == HashOf(body.value) && Hashes(c, body.value)
      && (c.codec == DAG_CBOR ==> body.value.node.Some?)
    case Junk => false
  }

  /** An item is taken for a CID exactly if it is good; either way only that item is read. */
  lemma TakesExactly(l: Local, items: seq<Item>, c: Cid)
    requires items != []
    ensures ReadOne(l, items, c).ok <==> Good(c, items[0])
    ensures ReadOne(l, items, c).rest == items[1..]
  {
    if items[0].DataItem? && items[0].body.Some? {
      ExtractLinksExactly(c, items[0].body.value);
    }
  }

  lemma ReadOneRecords(l: Local, items: seq<Item>, c: Cid)
    ensures var one := ReadOne(l, items, c);
            && l.blobs <= one.local.blobs
            && (one.ok ==> Recorded(one.local, Step(c, if items == [] then None else Some(items[0]))))
            && (items == [] || !one.ok ==> one.local.tables == l.tables)
            && (forall d :: d != c ==> SameFor(l.tables, one.local.tables, d))
  {
    if items != [] && items[0].DataItem? && items[0].body.Some? {
      ExtractLinksExactly(c, items[0].body.value);
    }
  }

  /** Later reads, being for other CIDs, do not disturb what was recorded. */
  lemma RecordedStays(a: Local, b: Local, s: Step)
    requires Recorded(a, s) && a.blobs <= b.blobs && SameFor(a.tables, b.tables, s.cid)
    ensures Recorded(b, s)
  {
  }

  ghost predicate Steps(before: Local, seen: set<Cid>, r: Received) {
    && before.blobs <= r.local.blobs
    && (forall s :: s in r.log ==> s.cid !in seen && Recorded(r.local, s))
    && (forall c :: Skipped(r.log, c) ==> SameFor(before.tables, r.local.tables, c))
    && (forall i, j :: 0 <= i < j < |r.log| ==> r.log[i].cid != r.log[j].cid)
    && (forall s :: s in r.log && s.item == None ==> SameFor(before.tables, r.local.tables, s.cid))
  }

  ghost predicate Skipped(log: seq<Step>, c: Cid) {
    forall s :: s in log ==> s.cid != c
  }

  lemma StepsJoin(l: Local, one: One, items: seq<Item>, c: Cid, seen: set<Cid>, next: Received)
    requires one == ReadOne(l, items, c) && one.ok && c !in seen && Steps(one.local, seen + {c}, next)
    ensures Steps(l, seen, next.(log := [Step(c, if items == [] then None else Some(items[0]))] + next.log))
  {
    var first := Step(c, if items == [] then None else Some(items[0]));
    ReadOneRecords(l, items, c);
    assert Skipped(next.log, c);
    RecordedStays(one.local, next.local, first);
    var log := [first] + next.log;
    forall s | s in log ensures s == first || s in next.log {
    }
    forall d | Skipped(log, d) ensures SameFor(l.tables, next.local.tables, d) {
      assert first in log;
      assert forall s :: s in next.log ==> s in log;
      assert Skipped(next.log, d);
    }
    forall s | s in log && s.item == None ensures SameFor(l.tables, next.local.tables, s.cid) {
      if s != first {
        assert s.cid != c;
      }
    }
  }

  /**
    Receiver integrity, for every stream and every tables to start from: each
    included CID is recorded once and stays as recorded.  If data came with it,
    the stored blob matches the CID's multihash, the recorded blob hash is that
    blob's, and the recorded links are those in the blob.  Nothing else changes.
  */
  lemma {:induction false} ReceiverIntegrity(l: Local, items: seq<Item>, pending: seq<Cid>, seen: set<Cid>, f: Filter)
    ensures Steps(l, seen, ReadFull(l, items, pending, seen, f))
    decreases |items|, |l.tables.links.Keys - seen|, |pending|
  {
    if pending == [] {
    } else if pending[0] in seen {
      ReceiverIntegrity(l, items, pending[1..], seen, f);
    } else {
      var c := pending[0];
      var one := if Include(f, c) then ReadOne(l, items, c) else One(l, items, true);
      ReadOneRecords(l, items, c);
      if one.ok {
        SmallerRest(l.tables.links.Keys, seen, seen + {c});
        var rest := Children(one.local.tables.links, c) + pending[1..];
        ReceiverIntegrity(one.local, one.rest, rest, seen + {c}, f);
        if Include(f, c) {
          StepsJoin(l, one, items, c, seen, ReadFull(one.local, one.rest, rest, seen + {c}, f));
        }
      }
    }
  }

  // ------------------------------------------------------- the end of the stream

  /** Without anything to read the receiver succeeds and records nothing. */
  lemma {:induction false} EmptyStreamSucceeds(l: Local, pending: seq<Cid>, seen: set<Cid>, f: Filter)
    ensures Left(ReadFull(l, [], pending, seen, f)) == One(l, [], true)
    decreases |l.tables.links.Keys - seen|, |pending|
  {
    if pending == [] {
    } else if pending[0] in seen {
      EmptyStreamSucceeds(l, pending[1..], seen, f);
    } else {
      SmallerRest(l.tables.links.Keys, seen, seen + {pending[0]});
      EmptyStreamSucceeds(l, Children(l.tables.links, pending[0]) + pending[1..], seen + {pending[0]}, f);
    }
  }

  lemma ReadOneOfCut(l: Local, items: seq<Item>, k: nat, c: Cid)
    requires 0 < k <= |items|
    ensures ReadOne(l, items, c).rest == items[1..]
    ensures ReadOne(l, items[..k], c) == ReadOne(l, items, c).(rest := items[1..][..k - 1])
  {
    assert items[..k][0] == items[0] && items[..k][1..] == items[1..][..k - 1];
  }

  /** A stream cut between two items is not noticed: if all of it is accepted, so is any part. */
  lemma {:induction false} CutIsNotNoticed(
      l: Local, items: seq<Item>, k: nat, pending: seq<Cid>, seen: set<Cid>, f: Filter)
    requires ReadFull(l, items, pending, seen, f).ok && k <= |items|
    ensures ReadFull(l, items[..k], pending, seen, f).ok
    decreases |items|, |l.tables.links.Keys - seen|, |pending|
  {
    if k == 0 {
      EmptyStreamSucceeds(l, pending, seen, f);
    } else if pending != [] {
      var c := pending[0];
      if c in seen {
        CutIsNotNoticed(l, items, k, pending[1..], seen, f);
      } else {
        var one := if Include(f, c) then ReadOne(l, items, c) else One(l, items, true);
        SmallerRest(l.tables.links.Keys, seen, seen + {c});
        var rest := Children(one.local.tables.links, c) + pending[1..];
        if Include(f, c) {
          ReadOneOfCut(l, items, k, c);
          CutIsNotNoticed(one.local, items[1..], k - 1, rest, seen + {c}, f);
        } else {
          CutIsNotNoticed(l, items, k, rest, seen + {c}, f);
        }
      }
    }
  }

  // ------------------------------------------------------------ an honest sender

  /** A sender's entry for a CID is what the blob behind it says. */
  ghost predicate True(s: Local, c: Cid) {
    && c in s.tables.hashes && s.tables.hashes[c].HashOf?
    && s.tables.hashes[c].data in s.blobs && Hashes(c, s.tables.hashes[c].data)
    && (!Raw(c) ==> c in s.tables.links && LinksIn(c, s.tables.hashes[c].data, s.tables.links[c]))
  }

  ghost predicate AllTrue(s: Local, cids: seq<Cid>) { forall c :: c in cids ==> True(s, c) }

  /** What the receiver can see of the sender's links: those in the data it is sent. */
  function Pruned(links: LinkMap, inline: Inline): LinkMap {
    map c | c in links :: if Inlined(inline, c) then links[c] else []
  }

  /** Links the receiver goes by: those it is sent with an included CID, and its own below any other. */
  ghost predicate GoesBy(links: LinkMap, s: Local, l: Local, f: Filter, inline: Inline) {
    forall c :: Children(links, c) == if Include(f, c) then Children(Pruned(s.tables.links, inline), c)
                                      else Children(l.tables.links, c)
  }

  function ItemFor(s: Local, c: Cid, inline: Inline): Item
    requires c in s.tables.hashes && s.tables.hashes[c].HashOf?
  {
    var h := s.tables.hashes[c];
    if Inlined(inline, c) then DataItem(h, Some(h.data)) else HashItem(h)
  }

  /** The receiver's tables and blobs after these CIDs arrived from this sender. */
  function Arrived(l: Local, s: Local, cids: seq<Cid>, inline: Inline): Local
    requires AllTrue(s, cids)
    decreases |cids|
  {
    if cids == [] then l else
      assert True(s, cids[0]);
      Arrived(ArrivedOne(l, s, cids[0], inline), s, cids[1..], inline)
  }

  function ArrivedOne(l: Local, s: Local, c: Cid, inline: Inline): Local
    requires c in s.tables.hashes && s.tables.hashes[c].HashOf?
  {
    ReadOne(l, [ItemFor(s, c, inline)], c).local
  }

  lemma ReadOneArrives(l: Local, s: Local, c: Cid, inline: Inline, more: seq<Item>)
    requires True(s, c)
    ensures ReadOne(l, [ItemFor(s, c, inline)] + more, c) == One(ArrivedOne(l, s, c, inline), more, true)
    ensures Children(ArrivedOne(l, s, c, inline).tables.links, c) == Children(Pruned(s.tables.links, inline), c)
  {
    ExtractLinksExactly(c, s.tables.hashes[c].data);
    assert ([ItemFor(s, c, inline)] + more)[1..] == more;
  }

  lemma WriteCons(s: Local, c: Cid, cids: seq<Cid>, inline: Inline)
    requires True(s, c)
    ensures var rest := Write(cids, s.tables, s.blobs, inline);
            Write([c] + cids, s.tables, s.blobs, inline) == Written([ItemFor(s, c, inline)] + rest.items, rest.ok)
  {
    assert ([c] + cids)[1..] == cids;
  }

  lemma ArrivedCons(l: Local, s: Local, c: Cid, cids: seq<Cid>, inline: Inline)
    requires AllTrue(s, [c] + cids)
    ensures True(s, c) && AllTrue(s, cids)
    ensures Arrived(l, s, [c] + cids, inline) == Arrived(ArrivedOne(l, s, c, inline), s, cids, inline)
  {
    assert c in [c] + cids && forall d :: d in cids ==> d in [c] + cids;
    assert ([c] + cids)[1..] == cids;
  }

  lemma GoesByAfter(links: LinkMap, s: Local, l: Local, f: Filter, inline: Inline, c: Cid)
    requires GoesBy(links, s, l, f, inline) && True(s, c) && Include(f, c)
    ensures GoesBy(links, s, ArrivedOne(l, s, c, inline), f, inline)
    ensures Children(ArrivedOne(l, s, c, inline).tables.links, c) == Children(links, c)
  {
    ReadOneArrives(l, s, c, inline, []);
  }

  // ------------------------------------------------------------ what is asked for

  function Cids(log: seq<Step>): seq<Cid> {
    if log == [] then [] else [log[0].cid] + Cids(log[1..])
  }

  /** The included CIDs the receiver meets, in order: those it takes the items to be for. */
  function Asked(l: Local, items: seq<Item>, pending: seq<Cid>, seen: set<Cid>, f: Filter): seq<Cid> {
    Cids(ReadFull(l, items, pending, seen, f).log)
  }

  lemma AskedStep(l: Local, items: seq<Item>, c: Cid, rest: seq<Cid>, seen: set<Cid>, f: Filter)
    ensures c in seen ==> Asked(l, items, [c] + rest, seen, f) == Asked(l, items, rest, seen, f)
    ensures c !in seen && !Include(f, c) ==>
              Asked(l, items, [c] + rest, seen, f)
              == Asked(l, items, Children(l.tables.links, c) + rest, seen + {c}, f)
    ensures c !in seen && Include(f, c) ==>
              var one := ReadOne(l, items, c);
              Asked(l, items, [c] + rest, seen, f)
              == if one.ok then
                   [c] + Asked(one.local, one.rest, Children(one.local.tables.links, c) + rest, seen + {c}, f)
                 else []
  {
    assert ([c] + rest)[1..] == rest;
    if c !in seen && Include(f, c) {
      var one := ReadOne(l, items, c);
      if one.ok {
        ConsCids(c, if items == [] then None else Some(items[0]),
                 ReadFull(one.local, one.rest, Children(one.local.tables.links, c) + rest, seen + {c}, f).log);
      }
    }
  }

  lemma ConsCids(c: Cid, item: Option<Item>, log: seq<Step>)
    ensures Cids([Step(c, item)] + log) == [c] + Cids(log)
  {
    assert ([Step(c, item)] + log)[1..] == log;
  }

  lemma SelectStep(links: LinkMap, f: Filter, c: Cid, rest: seq<Cid>, seen: set<Cid>)
    ensures var here := Select(f, Preorder(links, [c] + rest, seen).out);
            if c in seen then here == Select(f, Preorder(links, rest, seen).out)
            else
              var next := Select(f, Preorder(links, Children(links, c) + rest, seen + {c}).out);
              here == if Include(f, c) then [c] + next else next
  {
    PreorderStep(links, c, rest, seen);
    if c !in seen {
      var next := Preorder(links, Children(links, c) + rest, seen + {c}).out;
      SelectCons(f, c, next);
      Units(Select(f, next));
    }
  }

  /** The included CIDs of a walk over these links. */
  function Walked(links: LinkMap, f: Filter, pending: seq<Cid>, seen: set<Cid>): seq<Cid> {
    Select(f, Preorder(links, pending, seen).out)
  }

  lemma PrefixCons<T>(a: T, s: seq<T>, k: nat, b: T, t: seq<T>)
    requires 0 < k <= |s| + 1
    ensures ([a] + s)[..k] <= [b] + t <==> a == b && s[..k - 1] <= t
  {
    var p, u := ([a] + s)[..k], [b] + t;
    assert p == [a] + s[..k - 1];
    if p <= u {
      assert u[..k] == p && u[0] == p[0];
      assert s[..k - 1] == p[1..] && p[1..] == u[1..k] && u[1..k] == t[..k - 1];
    }
  }

  /** The walk begins with the first k of these CIDs exactly if the receiver, given their items, asks for them. */
  ghost predicate AsksAsWalked(
      links: LinkMap, s: Local, l: Local, f: Filter, inline: Inline, more: seq<Item>,
      pending: seq<Cid>, seen: set<Cid>, out: seq<Cid>, k: nat)
    requires k <= |out|
  {
    out[..k] <= Walked(links, f, pending, seen) <==>
    out[..k] <= Asked(l, Write(out, s.tables, s.blobs, inline).items + more, pending, seen, f)
  }

  /** Meeting an included CID with an item of the sender's at hand. */
  lemma PrefixMet(
      links: LinkMap, s: Local, l: Local, f: Filter, inline: Inline, more: seq<Item>,
      c: Cid, rest: seq<Cid>, seen: set<Cid>, a: Cid, out: seq<Cid>, k: nat)
    requires GoesBy(links, s, l, f, inline)
    requires c !in seen && Include(f, c) && True(s, a) && 0 < k <= |out| + 1
    requires a == c ==>
               AsksAsWalked(links, s, ArrivedOne(l, s, c, inline), f, inline, more,
                            Children(links, c) + rest, seen + {c}, out, k - 1)
    ensures AsksAsWalked(links, s, l, f, inline, more, [c] + rest, seen, [a] + out, k)
  {
    var items := Write(out, s.tables, s.blobs, inline).items;
    SelectStep(links, f, c, rest, seen);
    PrefixCons(a, out, k, c, Walked(links, f, Children(links, c) + rest, seen + {c}));
    WriteCons(s, a, out, inline);
    Assoc([ItemFor(s, a, inline)], items, more);
    var all := [ItemFor(s, a, inline)] + (items + more);
    AskedStep(l, all, c, rest, seen, f);
    var one := ReadOne(l, all, c);
    if a == c {
      ReadOneArrives(l, s, c, inline, items + more);
    }
    if one.ok {
      PrefixCons(a, out, k, c, Asked(one.local, one.rest, Children(one.local.tables.links, c) + rest, seen + {c}, f));
    }
  }

  lemma NothingAsked(
      links: LinkMap, s: Local, l: Local, f: Filter, inline: Inline, more: seq<Item>,
      pending: seq<Cid>, seen: set<Cid>, out: seq<Cid>, k: nat)
    requires k <= |out| && (k == 0 || pending == [])
    ensures AsksAsWalked(links, s, l, f, inline, more, pending, seen, out, k)
  {
  }

  lemma AllTrueHead(s: Local, cids: seq<Cid>)
    requires cids != [] && AllTrue(s, cids)
    ensures True(s, cids[0]) && AllTrue(s, cids[1..]) && cids == [cids[0]] + cids[1..]
  {
  }

  /** A CID seen before, or one left out, asks for nothing. */
  lemma PassedBy(
      links: LinkMap, s: Local, l: Local, f: Filter, inline: Inline, more: seq<Item>,
      c: Cid, rest: seq<Cid>, seen: set<Cid>, out: seq<Cid>, k: nat)
    requires GoesBy(links, s, l, f, inline) && k <= |out| && (c in seen || !Include(f, c))
    requires AsksAsWalked(links, s, l, f, inline, more,
                          if c in seen then rest else Children(links, c) + rest, seen + {c}, out, k)
    ensures AsksAsWalked(links, s, l, f, inline, more, [c] + rest, seen, out, k)
  {
    SelectStep(links, f, c, rest, seen);
    AskedStep(l, Write(out, s.tables, s.blobs, inline).items + more, c, rest, seen, f);
    assert c in seen ==> seen + {c} == seen;
  }

  /**
    The receiver asks for the sender's first k CIDs, in order, exactly if the walk
    over the links it goes by begins with them, whatever follows in the stream.
  */
  lemma {:induction false} AsksFor(
      links: LinkMap, s: Local, l: Local, f: Filter, inline: Inline, more: seq<Item>,
      pending: seq<Cid>, seen: set<Cid>, out: seq<Cid>, k: nat)
    requires GoesBy(links, s, l, f, inline) && k <= |out| && AllTrue(s, out)
    ensures AsksAsWalked(links, s, l, f, inline, more, pending, seen, out, k)
    decreases |links.Keys - seen|, |pending|, 1
  {
    if k == 0 || pending == [] {
      NothingAsked(links, s, l, f, inline, more, pending, seen, out, k);
    } else {
      var c, rest := pending[0], pending[1..];
      assert pending == [c] + rest;
      if c in seen || !Include(f, c) {
        AsksForPast(links, s, l, f, inline, more, c, rest, seen, out, k);
      } else {
        AllTrueHead(s, out);
        AsksForAt(links, s, l, f, inline, more, c, rest, seen, out[0], out[1..], k);
      }
    }
  }

  lemma {:induction false} AsksForPast(
      links: LinkMap, s: Local, l: Local, f: Filter, inline: Inline, more: seq<Item>,
      c: Cid, rest: seq<Cid>, seen: set<Cid>, out: seq<Cid>, k: nat)
    requires GoesBy(links, s, l, f, inline) && k <= |out| && AllTrue(s, out)
    requires c in seen || !Include(f, c)
    ensures AsksAsWalked(links, s, l, f, inline, more, [c] + rest, seen, out, k)
    decreases |links.Keys - seen|, |rest| + 1, 0
  {
    SmallerRest(links.Keys, seen, seen + {c});
    var next := if c in seen then rest else Children(links, c) + rest;
    AsksFor(links, s, l, f, inline, more, next, seen + {c}, out, k);
    PassedBy(links, s, l, f, inline, more, c, rest, seen, out, k);
  }

  lemma {:induction false} AsksForAt(
      links: LinkMap, s: Local, l: Local, f: Filter, inline: Inline, more: seq<Item>,
      c: Cid, rest: seq<Cid>, seen: set<Cid>, a: Cid, others: seq<Cid>, k: nat)
    requires GoesBy(links, s, l, f, inline) && 0 < k <= |others| + 1 && True(s, a) && AllTrue(s, others)
    requires c !in seen && Include(f, c)
    ensures AsksAsWalked(links, s, l, f, inline, more, [c] + rest, seen, [a] + others, k)
    decreases |links.Keys - seen|, |rest| + 1, 0
  {
    if a == c {
      SmallerRest(links.Keys, seen, seen + {c});
      GoesByAfter(links, s, l, f, inline, c);
      AsksFor(links, s, ArrivedOne(l, s, c, inline), f, inline, more,
              Children(links, c) + rest, seen + {c}, others, k - 1);
    }
    PrefixMet(links, s, l, f, inline, more, c, rest, seen, a, others, k);
  }

  // ------------------------------------------------------------ a walk in step

  /** What the sender writes and what the receiver makes of it, from here on. */
  ghost predicate InStep(
      s: Local, l: Local, out: seq<Cid>, inline: Inline, more: seq<Item>, pending: seq<Cid>, seen: set<Cid>, f: Filter)
  {
    var w := Write(out, s.tables, s.blobs, inline);
    && AllTrue(s, out)
    && w.ok
    && Left(ReadFull(l, w.items + more, pending, seen, f)) == One(Arrived(l, s, out, inline), more, true)
    && Asked(l, w.items + more, pending, seen, f) == out
  }

  lemma InStepIncluded(
      links: LinkMap, s: Local, l: Local, c: Cid, out: seq<Cid>, inline: Inline, more: seq<Item>,
      rest: seq<Cid>, seen: set<Cid>, f: Filter)
    requires GoesBy(links, s, l, f, inline) && True(s, c) && c !in seen && Include(f, c)
    requires AllTrue(s, [c] + out)
    requires InStep(s, ArrivedOne(l, s, c, inline), out, inline, more, Children(links, c) + rest, seen + {c}, f)
    ensures InStep(s, l, [c] + out, inline, more, [c] + rest, seen, f)
  {
    WriteCons(s, c, out, inline);
    var item := ItemFor(s, c, inline);
    var w := Write(out, s.tables, s.blobs, inline);
    Assoc([item], w.items, more);
    ReadOneArrives(l, s, c, inline, w.items + more);
    ReadFullStep(l, [item] + (w.items + more), c, rest, seen, f);
    AskedStep(l, [item] + (w.items + more), c, rest, seen, f);
    ArrivedCons(l, s, c, out, inline);
  }

  lemma InStepSkipped(
      links: LinkMap, s: Local, l: Local, c: Cid, out: seq<Cid>, inline: Inline, more: seq<Item>,
      rest: seq<Cid>, seen: set<Cid>, f: Filter)
    requires GoesBy(links, s, l, f, inline) && (c in seen || !Include(f, c))
    requires InStep(s, l, out, inline, more, if c in seen then rest else Children(links, c) + rest, seen + {c}, f)
    ensures InStep(s, l, out, inline, more, [c] + rest, seen, f)
  {
    ReadFullStep(l, Write(out, s.tables, s.blobs, inline).items + more, c, rest, seen, f);
    AskedStep(l, Write(out, s.tables, s.blobs, inline).items + more, c, rest, seen, f);
    assert c in seen ==> seen + {c} == seen;
  }

  lemma NothingLeft(links: LinkMap, s: Local, l: Local, f: Filter, inline: Inline, more: seq<Item>, seen: set<Cid>)
    ensures Walked(links, f, [], seen) == [] && InStep(s, l, [], inline, more, [], seen, f)
  {
    Units(more);
  }

  /** The list that a walk gives, one pending CID at a time. */
  lemma WalkedStep(links: LinkMap, f: Filter, c: Cid, rest: seq<Cid>, seen: set<Cid>, out: seq<Cid>)
    requires Walked(links, f, [c] + rest, seen) == out
    ensures c in seen ==> Walked(links, f, rest, seen + {c}) == out
    ensures c !in seen && !Include(f, c) ==> Walked(links, f, Children(links, c) + rest, seen + {c}) == out
    ensures c !in seen && Include(f, c) ==>
              && out != [] && out == [c] + out[1..]
              && Walked(links, f, Children(links, c) + rest, seen + {c}) == out[1..]
  {
    SelectStep(links, f, c, rest, seen);
    assert c in seen ==> seen + {c} == seen;
  }

  /** If the sender's list is the walk over the links the receiver goes by, the receiver does that walk. */
  lemma {:induction false} KeepsStep(
      links: LinkMap, s: Local, l: Local, f: Filter, inline: Inline, more: seq<Item>,
      pending: seq<Cid>, seen: set<Cid>, out: seq<Cid>)
    requires GoesBy(links, s, l, f, inline) && Walked(links, f, pending, seen) == out && AllTrue(s, out)
    ensures InStep(s, l, out, inline, more, pending, seen, f)
    decreases |links.Keys - seen|, |pending|, 1
  {
    if pending == [] {
      NothingLeft(links, s, l, f, inline, more, seen);
    } else {
      var c, rest := pending[0], pending[1..];
      assert pending == [c] + rest;
      if c in seen || !Include(f, c) {
        KeepsStepPast(links, s, l, f, inline, more, c, rest, seen, out);
      } else {
        KeepsStepAt(links, s, l, f, inline, more, c, rest, seen, out);
      }
    }
  }

  lemma {:induction false} KeepsStepPast(
      links: LinkMap, s: Local, l: Local, f: Filter, inline: Inline, more: seq<Item>,
      c: Cid, rest: seq<Cid>, seen: set<Cid>, out: seq<Cid>)
    requires GoesBy(links, s, l, f, inline) && Walked(links, f, [c] + rest, seen) == out && AllTrue(s, out)
    requires c in seen || !Include(f, c)
    ensures InStep(s, l, out, inline, more, [c] + rest, seen, f)
    decreases |links.Keys - seen|, |rest| + 1, 0
  {
    WalkedStep(links, f, c, rest, seen, out);
    SmallerRest(links.Keys, seen, seen + {c});
    KeepsStep(links, s, l, f, inline, more, if c in seen then rest else Children(links, c) + rest, seen + {c}, out);
    InStepSkipped(links, s, l, c, out, inline, more, rest, seen, f);
  }

  lemma {:induction false} KeepsStepAt(
      links: LinkMap, s: Local, l: Local, f: Filter, inline: Inline, more: seq<Item>,
      c: Cid, rest: seq<Cid>, seen: set<Cid>, out: seq<Cid>)
    requires GoesBy(links, s, l, f, inline) && Walked(links, f, [c] + rest, seen) == out && AllTrue(s, out)
    requires c !in seen && Include(f, c)
    ensures InStep(s, l, out, inline, more, [c] + rest, seen, f)
    decreases |links.Keys - seen|, |rest| + 1, 0
  {
    WalkedStep(links, f, c, rest, seen, out);
    SmallerRest(links.Keys, seen, seen + {c});
    AllTrueHead(s, out);
    GoesByAfter(links, s, l, f, inline, c);
    KeepsStep(links, s, ArrivedOne(l, s, c, inline), f, inline, more, Children(links, c) + rest, seen + {c}, out[1..]);
    InStepIncluded(links, s, l, c, out[1..], inline, more, rest, seen, f);
  }

  /** The receiver succeeded and asked for exactly these CIDs. */
  ghost predicate AskedExactly(
      s: Local, l: Local, f: Filter, inline: Inline, more: seq<Item>, pending: seq<Cid>, seen: set<Cid>, out: seq<Cid>)
  {
    var items := Write(out, s.tables, s.blobs, inline).items + more;
    ReadFull(l, items, pending, seen, f).ok && Asked(l, items, pending, seen, f) == out
  }

  lemma AskedPast(
      links: LinkMap, s: Local, l: Local, f: Filter, inline: Inline, more: seq<Item>,
      c: Cid, rest: seq<Cid>, seen: set<Cid>, out: seq<Cid>)
    requires GoesBy(links, s, l, f, inline) && (c in seen || !Include(f, c))
    requires AskedExactly(s, l, f, inline, more, [c] + rest, seen, out)
    ensures AskedExactly(s, l, f, inline, more, if c in seen then rest else Children(links, c) + rest, seen + {c}, out)
  {
    var items := Write(out, s.tables, s.blobs, inline).items + more;
    ReadFullStep(l, items, c, rest, seen, f);
    AskedStep(l, items, c, rest, seen, f);
    assert c in seen ==> seen + {c} == seen;
  }

  lemma AskedNext(
      links: LinkMap, s: Local, l: Local, f: Filter, inline: Inline, more: seq<Item>,
      c: Cid, rest: seq<Cid>, seen: set<Cid>, out: seq<Cid>)
    requires GoesBy(links, s, l, f, inline) && c !in seen && Include(f, c) && AllTrue(s, out)
    requires AskedExactly(s, l, f, inline, more, [c] + rest, seen, out)
    ensures out != [] && out[0] == c && True(s, c) && AllTrue(s, out[1..])
    ensures AskedExactly(s, ArrivedOne(l, s, c, inline), f, inline, more,
                         Children(links, c) + rest, seen + {c}, out[1..])
  {
    var items := Write(out, s.tables, s.blobs, inline).items + more;
    ReadFullStep(l, items, c, rest, seen, f);
    AskedStep(l, items, c, rest, seen, f);
    AllTrueHead(s, out);
    WriteCons(s, c, out[1..], inline);
    var others := Write(out[1..], s.tables, s.blobs, inline).items;
    Assoc([ItemFor(s, c, inline)], others, more);
    ReadOneArrives(l, s, c, inline, others + more);
    GoesByAfter(links, s, l, f, inline, c);
  }

  /** A receiver that succeeds in step has done the walk over the links it goes by, to its end. */
  lemma {:induction false} WalkedToTheEnd(
      links: LinkMap, s: Local, l: Local, f: Filter, inline: Inline, more: seq<Item>,
      pending: seq<Cid>, seen: set<Cid>, out: seq<Cid>)
    requires GoesBy(links, s, l, f, inline) && AllTrue(s, out)
    requires AskedExactly(s, l, f, inline, more, pending, seen, out)
    ensures Walked(links, f, pending, seen) == out
    decreases |links.Keys - seen|, |pending|
  {
    if pending != [] {
      var c, rest := pending[0], pending[1..];
      assert pending == [c] + rest;
      SelectStep(links, f, c, rest, seen);
      if c in seen {
        AskedPast(links, s, l, f, inline, more, c, rest, seen, out);
        assert seen + {c} == seen;
        WalkedToTheEnd(links, s, l, f, inline, more, rest, seen, out);
      } else {
        SmallerRest(links.Keys, seen, seen + {c});
        var next := Children(links, c) + rest;
        if Include(f, c) {
          AskedNext(links, s, l, f, inline, more, c, rest, seen, out);
          GoesByAfter(links, s, l, f, inline, c);
          WalkedToTheEnd(links, s, ArrivedOne(l, s, c, inline), f, inline, more, next, seen + {c}, out[1..]);
        } else {
          AskedPast(links, s, l, f, inline, more, c, rest, seen, out);
          WalkedToTheEnd(links, s, l, f, inline, more, next, seen + {c}, out);
        }
      }
    }
  }

  // ------------------------------------------------------------ the main theorem

  /** The sender's answer to the request, then anything. */
  function Stream(s: Local, opts: FullOpts, inline: Inline, more: seq<Item>): seq<Item> {
    Response(TraversalOpts(None, Some(opts)), inline, s.tables, s.blobs).items + more
  }

  function ReceivedFor(l: Local, items: seq<Item>, opts: FullOpts): Received {
    ReadFull(l, items, [opts.root], opts.Visited(), opts.TheFilter())
  }

  /** The links the receiver goes by in this request, from its own tables and what the sender would send. */
  function LinksInView(s: Local, l: Local, f: Filter, inline: Inline): LinkMap {
    map c | c in s.tables.links.Keys + l.tables.links.Keys ::
      if Include(f, c) then Children(Pruned(s.tables.links, inline), c) else Children(l.tables.links, c)
  }

  function InView(s: Local, l: Local, opts: FullOpts, inline: Inline): seq<Cid> {
    Traversed(LinksInView(s, l, opts.TheFilter(), inline), opts)
  }

  lemma ViewIsGoneBy(s: Local, l: Local, f: Filter, inline: Inline)
    ensures GoesBy(LinksInView(s, l, f, inline), s, l, f, inline)
  {
  }

  /**
    When sender and receiver keep step, exactly.  The receiver takes the first k
    items to be for the CIDs they were sent for if and only if the sender's list
    begins as the walk over the links in view; it takes all of them so and then
    succeeds if and only if that walk is the sender's list.  Only the entries the
    sender sends must be true; the receiver's tables and what follows in the stream
    may be anything.
  */
  lemma InStepExactly(s: Local, l: Local, opts: FullOpts, inline: Inline, more: seq<Item>, k: nat)
    requires AllTrue(s, Traversed(s.tables.links, opts)) && k <= |Traversed(s.tables.links, opts)|
    ensures var sent, r := Traversed(s.tables.links, opts), ReceivedFor(l, Stream(s, opts, inline, more), opts);
            && (sent[..k] <= Cids(r.log) <==> sent[..k] <= InView(s, l, opts, inline))
            && (r.ok && Cids(r.log) == sent <==> InView(s, l, opts, inline) == sent)
  {
    var f, have := opts.TheFilter(), opts.Visited();
    var sent, links := Traversed(s.tables.links, opts), LinksInView(s, l, f, inline);
    ViewIsGoneBy(s, l, f, inline);
    AsksFor(links, s, l, f, inline, more, [opts.root], have, sent, k);
    if InView(s, l, opts, inline) == sent {
      KeepsStep(links, s, l, f, inline, more, [opts.root], have, sent);
    } else if AskedExactly(s, l, f, inline, more, [opts.root], have, sent) {
      WalkedToTheEnd(links, s, l, f, inline, more, [opts.root], have, sent);
    }
  }

  /** The receiver has the sender's hash for this CID, the links it was shown, and the data if that was sent. */
  ghost predicate Agrees(l: Local, s: Local, c: Cid, inline: Inline) {
    && c in s.tables.hashes && c in l.tables.hashes && l.tables.hashes[c] == s.tables.hashes[c]
    && (!Raw(c) ==> c in s.tables.links && c in l.tables.links
                    && l.tables.links[c] == if Inlined(inline, c) then s.tables.links[c] else [])
    && (Inlined(inline, c) && s.tables.hashes[c].HashOf? ==> s.tables.hashes[c].data in l.blobs)
  }

  lemma OneArrivalAgrees(l: Local, s: Local, c: Cid, inline: Inline, d: Cid)
    requires True(s, c)
    requires d == c || Agrees(l, s, d, inline)
    ensures Agrees(ArrivedOne(l, s, c, inline), s, d, inline)
  {
    var item := ItemFor(s, c, inline);
    ExtractLinksExactly(c, s.tables.hashes[c].data);
    assert [item][1..] == [];
  }

  lemma {:induction false} ArrivalsAgree(l: Local, s: Local, cids: seq<Cid>, inline: Inline, d: Cid)
    requires AllTrue(s, cids)
    requires d in cids || Agrees(l, s, d, inline)
    ensures Agrees(Arrived(l, s, cids, inline), s, d, inline)
    decreases |cids|
  {
    if cids != [] {
      assert True(s, cids[0]);
      if d == cids[0] || Agrees(l, s, d, inline) {
        OneArrivalAgrees(l, s, cids[0], inline, d);
      }
      ArrivalsAgree(ArrivedOne(l, s, cids[0], inline), s, cids[1..], inline, d);
    }
  }

  /**
    In step, the sender writes its response without error, and the receiver
    succeeds, reads exactly that response and nothing after it, and then holds for
    every included CID the sender's hash, the links in the data that came with it,
    and that data.
  */
  lemma SyncKeepsStep(s: Local, l: Local, opts: FullOpts, inline: Inline, more: seq<Item>)
    requires AllTrue(s, Traversed(s.tables.links, opts))
    requires Traversed(s.tables.links, opts) == InView(s, l, opts, inline)
    ensures var w := Response(TraversalOpts(None, Some(opts)), inline, s.tables, s.blobs);
            var r := ReceivedFor(l, w.items + more, opts);
            && w.ok && |w.items| == |Traversed(s.tables.links, opts)|
            && r.ok && r.rest == more
            && Cids(r.log) == Traversed(s.tables.links, opts)
            && (forall c :: c in Traversed(s.tables.links, opts) ==> Agrees(r.local, s, c, inline))
  {
    var f, out := opts.TheFilter(), Traversed(s.tables.links, opts);
    ViewIsGoneBy(s, l, f, inline);
    KeepsStep(LinksInView(s, l, f, inline), s, l, f, inline, more, [opts.root], opts.Visited(), out);
    CompleteExactly(out, s, inline);
    forall c | c in out ensures Agrees(Arrived(l, s, out, inline), s, c, inline) {
      ArrivalsAgree(l, s, out, inline, c);
    }
  }

  // --------------------------------------------- a view of the sender's tables alone

  /** Walks over links that agree on all that is visited are the same. */
  lemma {:induction false} PreorderSame(a: LinkMap, b: LinkMap, cs: seq<Cid>, seen: set<Cid>)
    requires forall c :: c in Preorder(a, cs, seen).out ==> Children(a, c) == Children(b, c)
    ensures Preorder(a, cs, seen) == Preorder(b, cs, seen)
    decreases |a.Keys - seen|, |cs|
  {
    if cs != [] && cs[0] in seen {
      PreorderSame(a, b, cs[1..], seen);
    } else if cs != [] {
      PreorderOfNew(a, cs, seen);
      PreorderOfNew(b, cs, seen);
      PreorderSame(a, b, Children(a, cs[0]), seen + {cs[0]});
      PreorderSame(a, b, cs[1..], Preorder(a, Children(a, cs[0]), seen + {cs[0]}).seen);
    }
  }

  /** A walk over fewer links visits nothing else. */
  lemma FewerVisited(few: LinkMap, many: LinkMap, cs: seq<Cid>, seen: set<Cid>)
    requires forall c, d :: d in Children(few, c) ==> d in Children(many, c)
    ensures forall c :: c in Preorder(few, cs, seen).out ==> c in Preorder(many, cs, seen).out
  {
    VisitsExactlyReachable(few, cs, seen);
    VisitsExactlyReachable(many, cs, seen);
    forall c | Reachable(few, seen, cs, c) ensures Reachable(many, seen, cs, c) {
      var p :| Path(few, seen, p) && p[0] in cs && p[|p| - 1] == c;
      assert Path(many, seen, p);
    }
  }

  /** The CIDs a full traversal of these tables visits, whatever its filter. */
  function VisitedBy(links: LinkMap, opts: FullOpts): seq<Cid> {
    Preorder(links, [opts.root], opts.Visited()).out
  }

  ghost predicate OnlyRawLeftOut(links: LinkMap, opts: FullOpts) {
    forall c :: c in VisitedBy(links, opts) && !Raw(c) ==> Include(opts.TheFilter(), c)
  }

  /**
    If the filter leaves out only raw CIDs, what is in view depends on the sender's
    tables and the request alone: it is the walk over the links in the data sent.
  */
  lemma ViewOfSender(s: Local, l: Local, opts: FullOpts, inline: Inline)
    requires OnlyRawLeftOut(s.tables.links, opts)
    ensures InView(s, l, opts, inline) == Traversed(Pruned(s.tables.links, inline), opts)
  {
    var few := Pruned(s.tables.links, inline);
    FewerVisited(few, s.tables.links, [opts.root], opts.Visited());
    PreorderSame(few, LinksInView(s, l, opts.TheFilter(), inline), [opts.root], opts.Visited());
  }

  /** Nothing new past a prefix means a repetition. */
  lemma PastPrefix<T>(a: seq<T>, b: seq<T>)
    requires a < b && forall x :: x in b ==> x in a
    ensures !Distinct(b)
  {
    assert b[|a|] in b;
    var i :| 0 <= i < |a| && a[i] == b[|a|];
    assert b[i] == b[|a|];
  }

  /** A walk over the links shown that begins with the whole of the sender's list is that list. */
  lemma ShownIsNoLonger(links: LinkMap, opts: FullOpts, inline: Inline)
    requires Traversed(links, opts) <= Traversed(Pruned(links, inline), opts)
    ensures Traversed(links, opts) == Traversed(Pruned(links, inline), opts)
  {
    var f, few := opts.TheFilter(), Pruned(links, inline);
    FewerVisited(few, links, [opts.root], opts.Visited());
    PreorderSets(few, [opts.root], opts.Visited());
    Selected(f, VisitedBy(few, opts));
    Selected(f, VisitedBy(links, opts));
    if Traversed(links, opts) < Traversed(few, opts) {
      PastPrefix(Traversed(links, opts), Traversed(few, opts));
    }
  }

  /**
    For a filter that leaves out only raw CIDs: whatever the receiver's tables and
    whatever follows, it takes the items to be for exactly the CIDs they were sent
    for if and only if the links in the data sent give the sender's list again.
  */
  lemma DecidedBySender(s: Local, l: Local, opts: FullOpts, inline: Inline, more: seq<Item>)
    requires AllTrue(s, Traversed(s.tables.links, opts)) && OnlyRawLeftOut(s.tables.links, opts)
    ensures Cids(ReceivedFor(l, Stream(s, opts, inline, more), opts).log) == Traversed(s.tables.links, opts)
            <==> Traversed(Pruned(s.tables.links, inline), opts) == Traversed(s.tables.links, opts)
  {
    var sent := Traversed(s.tables.links, opts);
    ViewOfSender(s, l, opts, inline);
    InStepExactly(s, l, opts, inline, more, |sent|);
    assert sent[..|sent|] == sent;
    if sent <= InView(s, l, opts, inline) {
      ShownIsNoLonger(s.tables.links, opts, inline);
    }
  }

  /** Sending the data of every CID that has links is enough, and then all of the sender's links are in view. */
  lemma DataOfLinksIsEnough(s: Local, opts: FullOpts, inline: Inline)
    requires forall c :: c in VisitedBy(s.tables.links, opts) ==>
               Inlined(inline, c) || Children(s.tables.links, c) == []
    ensures Traversed(Pruned(s.tables.links, inline), opts) == Traversed(s.tables.links, opts)
    ensures forall c :: c in VisitedBy(s.tables.links, opts) ==>
              Children(Pruned(s.tables.links, inline), c) == Children(s.tables.links, c)
  {
    PreorderSame(s.tables.links, Pruned(s.tables.links, inline), [opts.root], opts.Visited());
  }

  /** A root of which only the hash comes is all the receiver asks for, so step is lost if more was sent. */
  lemma HashOnlyRootStops(s: Local, l: Local, opts: FullOpts, inline: Inline, more: seq<Item>)
    requires AllTrue(s, Traversed(s.tables.links, opts)) && OnlyRawLeftOut(s.tables.links, opts)
    requires opts.root !in opts.visited && !Raw(opts.root) && !Inlined(inline, opts.root)
    ensures Traversed(Pruned(s.tables.links, inline), opts) == [opts.root]
    ensures Cids(ReceivedFor(l, Stream(s, opts, inline, more), opts).log) == Traversed(s.tables.links, opts)
            <==> Traversed(s.tables.links, opts) == [opts.root]
  {
    var c, links := opts.root, Pruned(s.tables.links, inline);
    PreorderSets(s.tables.links, [c], opts.Visited());
    PreorderCloses(s.tables.links, [c], opts.Visited());
    assert c in [c];
    Units([c]);
    SelectStep(links, opts.TheFilter(), c, [], opts.Visited());
    assert Children(links, c) + [] == [];
    Units(Traversed(links, opts));
    DecidedBySender(s, l, opts, inline, more);
  }

  // ------------------------------------------------------------ sequence requests

  /** One of the items, in its place in the list, was recorded for this CID. */
  ghost predicate RecordedOnce(after: Local, items: seq<Item>, cids: seq<Cid>, c: Cid) {
    exists k :: 0 <= k < |cids| && k < |items| && cids[k] == c && Recorded(after, Step(c, Some(items[k])))
  }

  lemma RecordedLater(after: Local, items: seq<Item>, cids: seq<Cid>, c: Cid)
    requires items != [] && cids != [] && RecordedOnce(after, items[1..], cids[1..], c)
    ensures RecordedOnce(after, items, cids, c)
  {
    var k :| 0 <= k < |cids[1..]| && k < |items[1..]| && cids[1..][k] == c
             && Recorded(after, Step(c, Some(items[1..][k])));
    assert cids[k + 1] == c && items[k + 1] == items[1..][k];
  }

  /** What the receiver of a sequence ends with for one CID, whatever the stream. */
  ghost predicate ListRecords(l: Local, items: seq<Item>, cids: seq<Cid>, c: Cid) {
    var r := ReadList(l, items, cids);
    && (RecordedOnce(r.local, items, cids, c) || SameFor(l.tables, r.local.tables, c))
    && (r.ok && (exists k :: 0 <= k < |cids| && k < |items| && cids[k] == c) ==> RecordedOnce(r.local, items, cids, c))
  }

  lemma ListRecordsNext(l: Local, items: seq<Item>, cids: seq<Cid>, c: Cid)
    requires cids != [] && items != [] && ReadOne(l, items, cids[0]).ok
    requires var one := ReadOne(l, items, cids[0]); ListRecords(one.local, items[1..], cids[1..], c)
    requires ReadOne(l, items, cids[0]).local.blobs <= ReadList(l, items, cids).local.blobs
    ensures ListRecords(l, items, cids, c)
  {
    var one, r := ReadOne(l, items, cids[0]), ReadList(l, items, cids);
    ReadOneRecords(l, items, cids[0]);
    if RecordedOnce(r.local, items[1..], cids[1..], c) {
      RecordedLater(r.local, items, cids, c);
    } else {
      if c == cids[0] {
        RecordedStays(one.local, r.local, Step(c, Some(items[0])));
      }
      if exists k :: 0 <= k < |cids| && k < |items| && cids[k] == c {
        var k :| 0 <= k < |cids| && k < |items| && cids[k] == c;
        assert k > 0 ==> cids[1..][k - 1] == c;
      }
    }
  }

  /**
    Receiver integrity for a sequence, for every stream and every tables to start
    from: an accepted stream is read one item for each CID, in order, up to the
    shorter of the two; each CID for which an item came ends as one of its items
    says, and no other entry changes.
  */
  lemma {:induction false} SequenceIntegrity(l: Local, items: seq<Item>, cids: seq<Cid>)
    ensures var r := ReadList(l, items, cids);
            && l.blobs <= r.local.blobs
            && (forall c :: ListRecords(l, items, cids, c))
            && (r.ok ==> r.rest == items[if |cids| < |items| then |cids| else |items|..])
    decreases |cids|
  {
    if cids != [] {
      var c, one := cids[0], ReadOne(l, items, cids[0]);
      ReadOneRecords(l, items, c);
      if one.ok {
        SequenceIntegrity(one.local, one.rest, cids[1..]);
        if items == [] {
          forall d ensures ListRecords(l, items, cids, d) {
            assert ListRecords(l, items, cids[1..], d);
          }
        } else {
          forall d ensures ListRecords(l, items, cids, d) {
            assert ListRecords(one.local, items[1..], cids[1..], d);
            ListRecordsNext(l, items, cids, d);
          }
        }
      }
    }
  }

  /** From any point of a sequence on, the receiver reads what was written for it. */
  lemma {:induction false} ListArrives(s: Local, l: Local, cids: seq<Cid>, inline: Inline, more: seq<Item>)
    requires AllTrue(s, cids)
    ensures var w := Write(cids, s.tables, s.blobs, inline);
            w.ok && ReadList(l, w.items + more, cids) == One(Arrived(l, s, cids, inline), more, true)
    decreases |cids|
  {
    if cids == [] {
      Units(more);
    } else {
      AllTrueHead(s, cids);
      var c, rest := cids[0], cids[1..];
      var items := Write(rest, s.tables, s.blobs, inline).items;
      WriteCons(s, c, rest, inline);
      Assoc([ItemFor(s, c, inline)], items, more);
      ReadOneArrives(l, s, c, inline, items + more);
      ListArrives(s, ArrivedOne(l, s, c, inline), rest, inline, more);
    }
  }

  /**
    A sequence needs no links to keep step: for any list of CIDs, repeats included,
    whose entries the sender has true, the response is written without error, and
    the receiver, from any tables, succeeds, reads exactly it, and then holds for
    every CID the sender's hash, the links in the data sent, and that data.
  */
  lemma SequenceIsRead(s: Local, l: Local, cids: seq<Cid>, inline: Inline, more: seq<Item>)
    requires AllTrue(s, cids)
    ensures var opts := TraversalOpts(Some(cids), None);
            var w := Response(opts, inline, s.tables, s.blobs);
            var r := Receive(l, w.items + more, opts);
            && w.ok && |w.items| == |cids|
            && r.ok && r.rest == more
            && forall c :: c in cids ==> Agrees(r.local, s, c, inline)
  {
    ListArrives(s, l, cids, inline, more);
    CompleteExactly(cids, s, inline);
    forall c | c in cids ensures Agrees(Arrived(l, s, cids, inline), s, c, inline) {
      ArrivalsAgree(l, s, cids, inline, c);
    }
  }

  // ------------------------------------------------------------ what is sent

  /** For which CIDs a request asks for the data, mode by mode. */
  ghost predicate AsksData(i: Inline, c: Cid) {
    || i.all
    || (i.noRaw && c.codec != RAW)
    || (!i.noRaw && i.exclude.Some? && c.codec !in i.exclude.value)
  }

  /** The CID is recorded, and if its data is asked for that is there. */
  ghost predicate Servable(s: Local, inline: Inline, c: Cid) {
    && c in s.tables.hashes
    && (AsksData(inline, c) ==> s.tables.hashes[c].HashOf? && s.tables.hashes[c].data in s.blobs)
  }

  /**
    Up to the first CID that cannot be served a response has for each CID its
    recorded hash, and exactly where the request asks for it the data of that hash.
  */
  lemma {:induction false} ItemsSay(cids: seq<Cid>, s: Local, inline: Inline, k: nat)
    requires k < |cids| && Servable(s, inline, cids[k]) && forall j :: 0 <= j < k ==> Servable(s, inline, cids[j])
    ensures var items, h := Write(cids, s.tables, s.blobs, inline).items, s.tables.hashes[cids[k]];
            k < |items| && items[k] == if AsksData(inline, cids[k]) then DataItem(h, Some(h.data)) else HashItem(h)
    decreases |cids|
  {
    if k > 0 {
      assert Servable(s, inline, cids[0]);
      assert forall j :: 0 <= j < k - 1 ==> cids[1..][j] == cids[j + 1];
      ItemsSay(cids[1..], s, inline, k - 1);
    }
  }

  /** It ends there: before that CID if it is not recorded, and after its header if only the data is missing. */
  lemma {:induction false} EndsAt(cids: seq<Cid>, s: Local, inline: Inline, k: nat)
    requires k < |cids| && !Servable(s, inline, cids[k]) && forall j :: 0 <= j < k ==> Servable(s, inline, cids[j])
    ensures var w, c := Write(cids, s.tables, s.blobs, inline), cids[k];
            && !w.ok && |w.items| == (if c in s.tables.hashes then k + 1 else k)
            && (c in s.tables.hashes ==> w.items[k] == DataItem(s.tables.hashes[c], None))
    decreases |cids|
  {
    if k > 0 {
      assert Servable(s, inline, cids[0]);
      assert forall j :: 0 <= j < k - 1 ==> cids[1..][j] == cids[j + 1];
      EndsAt(cids[1..], s, inline, k - 1);
    }
  }

  /** A response is complete exactly if every CID can be served; then it has one item for each. */
  lemma {:induction false} CompleteExactly(cids: seq<Cid>, s: Local, inline: Inline)
    ensures var w := Write(cids, s.tables, s.blobs, inline);
            && (w.ok <==> forall c :: c in cids ==> Servable(s, inline, c))
            && (w.ok ==> |w.items| == |cids|)
    decreases |cids|
  {
    if cids != [] {
      assert forall c :: c in cids <==> c == cids[0] || c in cids[1..];
      CompleteExactly(cids[1..], s, inline);
      assert Servable(s, inline, cids[0]) <==>
               && cids[0] in s.tables.hashes
               && (Inlined(inline, cids[0]) ==>
                     s.tables.hashes[cids[0]].HashOf? && s.tables.hashes[cids[0]].data in s.blobs);
    }
  }
}
