/** Blocks, CIDs, links and their tables. */
module Dags {
  // Hashing is symbolic: a multihash or a blob hash that was computed names the
  // data it was computed from.

  import opened Wrappers

  const RAW: nat := 0x55
  const DAG_CBOR: nat := 0x71

  datatype Cid = Cid(version: nat, codec: nat, hash: Multihash)

  datatype Multihash =
    | Sum(code: nat, data: Block)   // the digest of these bytes under a supported code
    | Other(id: nat)                // any other digest, or one of an unsupported code

  /** A blob's bytes, with what dag-cbor decoding makes of them. */
  datatype Block = Block(id: nat, node: Option<Node>)

  datatype Node =
    | Link(target: Cid)
    | Map(entries: seq<(nat, Node)>)
    | List(items: seq<Node>)
    | Scalar(id: nat)

  /** BLAKE3 */
  datatype BlobHash = HashOf(data: Block) | OtherHash(id: nat)

  predicate Raw(c: Cid) { c.codec == RAW }

  /** cidMatchesData */
  predicate Matches(c: Cid, data: Block) { c.hash.Sum? && c.hash.data == data }

  // ------------------------------------------------------------------- links

  function AppendUnique<T(==)>(s: seq<T>, x: T): seq<T> {
    if x in s then s else s + [x]
  }

  /** The closure of nodeLinks: append the links below a node to `out`. */
  function Walk(n: Node, out: seq<Cid>): seq<Cid>
    decreases n, 0
  {
    match n
    case Link(c) => AppendUnique(out, c)
    case Map(entries) => WalkEntries(n, entries, out)
    case List(items) => WalkItems(n, items, out)
    case Scalar(_) => out
  }

  function WalkEntries(ghost n: Node, entries: seq<(nat, Node)>, out: seq<Cid>): seq<Cid>
    requires forall e :: e in entries ==> e.1 < n
    decreases n, 0, |entries|
  {
    if entries == [] then out else
      assert entries[0] in entries;
      WalkEntries(n, entries[1..], Walk(entries[0].1, out))
  }

  function WalkItems(ghost n: Node, items: seq<Node>, out: seq<Cid>): seq<Cid>
    requires forall i :: i in items ==> i < n
    decreases n, 0, |items|
  {
    if items == [] then out else
      assert items[0] in items && forall i :: i in items[1..] ==> i in items;
      WalkItems(n, items[1..], Walk(items[0], out))
  }

  function NodeLinks(n: Node): seq<Cid> { Walk(n, []) }

  /** Every link below a node, in reading order, repeats included. */
  function AllLinks(n: Node): seq<Cid>
    decreases n, 0
  {
    match n
    case Link(c) => [c]
    case Map(entries) => AllOfEntries(n, entries)
    case List(items) => AllOfItems(n, items)
    case Scalar(_) => []
  }

  function AllOfEntries(ghost n: Node, entries: seq<(nat, Node)>): seq<Cid>
    requires forall e :: e in entries ==> e.1 < n
    decreases n, 0, |entries|
  {
    if entries == [] then [] else
      assert entries[0] in entries && forall e :: e in entries[1..] ==> e in entries;
      AllLinks(entries[0].1) + AllOfEntries(n, entries[1..])
  }

  function AllOfItems(ghost n: Node, items: seq<Node>): seq<Cid>
    requires forall i :: i in items ==> i < n
    decreases n, 0, |items|
  {
    if items == [] then [] else
      assert items[0] in items && forall i :: i in items[1..] ==> i in items;
      AllLinks(items[0]) + AllOfItems(n, items[1..])
  }

  /** s with the elements of xs that are new, each at its first occurrence. */
  function Extend<T(==)>(s: seq<T>, xs: seq<T>): seq<T>
    decreases |xs|
  {
    if xs == [] then s else Extend(AppendUnique(s, xs[0]), xs[1..])
  }

  lemma {:induction false} ExtendConcat<T>(s: seq<T>, xs: seq<T>, ys: seq<T>)
    ensures Extend(s, xs + ys) == Extend(Extend(s, xs), ys)
    decreases |xs|
  {
    if xs == [] {
      assert xs + ys == ys;
    } else {
      assert (xs + ys)[1..] == xs[1..] + ys;
      ExtendConcat(AppendUnique(s, xs[0]), xs[1..], ys);
    }
  }

  lemma {:induction false} WalkExtends(n: Node, out: seq<Cid>)
    ensures Walk(n, out) == Extend(out, AllLinks(n))
    decreases n, 0
  {
    match n
    case Link(c) =>
    case Map(entries) => WalkEntriesExtends(n, entries, out);
    case List(items) => WalkItemsExtends(n, items, out);
    case Scalar(_) =>
  }

  lemma {:induction false} WalkEntriesExtends(n: Node, entries: seq<(nat, Node)>, out: seq<Cid>)
    requires forall e :: e in entries ==> e.1 < n
    ensures WalkEntries(n, entries, out) == Extend(out, AllOfEntries(n, entries))
    decreases n, 0, |entries|
  {
    if entries != [] {
      assert entries[0] in entries && forall e :: e in entries[1..] ==> e in entries;
      WalkExtends(entries[0].1, out);
      WalkEntriesExtends(n, entries[1..], Walk(entries[0].1, out));
      ExtendConcat(out, AllLinks(entries[0].1), AllOfEntries(n, entries[1..]));
    }
  }

  lemma {:induction false} WalkItemsExtends(n: Node, items: seq<Node>, out: seq<Cid>)
    requires forall i :: i in items ==> i < n
    ensures WalkItems(n, items, out) == Extend(out, AllOfItems(n, items))
    decreases n, 0, |items|
  {
    if items != [] {
      assert items[0] in items && forall i :: i in items[1..] ==> i in items;
      WalkExtends(items[0], out);
      WalkItemsExtends(n, items[1..], Walk(items[0], out));
      ExtendConcat(out, AllLinks(items[0]), AllOfItems(n, items[1..]));
    }
  }

  ghost predicate Distinct<T>(s: seq<T>) {
    forall i, j :: 0 <= i < j < |s| ==> s[i] != s[j]
  }

  lemma {:induction false} ExtendKeepsDistinct<T>(s: seq<T>, xs: seq<T>)
    requires Distinct(s)
    ensures Distinct(Extend(s, xs)) && s <= Extend(s, xs)
    ensures forall x :: x in Extend(s, xs) <==> x in s || x in xs
    decreases |xs|
  {
    if xs != [] {
      ExtendKeepsDistinct(AppendUnique(s, xs[0]), xs[1..]);
      assert forall x :: x in xs <==> x == xs[0] || x in xs[1..];
    }
  }

  /** nodeLinks gives every link below the node once, in the order of first occurrence. */
  lemma NodeLinksAreTheLinks(n: Node)
    ensures NodeLinks(n) == Extend([], AllLinks(n))
    ensures Distinct(NodeLinks(n)) && forall c :: c in NodeLinks(n) <==> c in AllLinks(n)
  {
    WalkExtends(n, []);
    ExtendKeepsDistinct([], AllLinks(n));
  }

  /** ExtractLinks: only dag-cbor data is decoded; None if that fails. */
  function ExtractLinks(c: Cid, data: Block): Option<seq<Cid>> {
    if c.codec == RAW || c.codec != DAG_CBOR then Some([])
    else if data.node.None? then None
    else Some(NodeLinks(data.node.value))
  }

  /** ls names what occurs in xs, once each, in the order of first occurrence. */
  ghost predicate FirstOccurrences(ls: seq<Cid>, xs: seq<Cid>) {
    && Distinct(ls) && (forall x :: x in ls <==> x in xs)
    && forall i, j, b :: 0 <= i < j < |ls| && 0 <= b < |xs| && xs[b] == ls[j] ==> ls[i] in xs[..b]
  }

  /** What the links of a block are: those below its node if it is dag-cbor, and none otherwise. */
  ghost predicate LinksIn(c: Cid, data: Block, ls: seq<Cid>) {
    if c.codec == DAG_CBOR then data.node.Some? && FirstOccurrences(ls, AllLinks(data.node.value)) else ls == []
  }

  lemma {:induction false} ExtendIsFirst(xs: seq<Cid>)
    ensures FirstOccurrences(Extend([], xs), xs)
  {
    if xs != [] {
      var n := |xs| - 1;
      var ys, x := xs[..n], xs[n];
      var ls := Extend([], ys);
      ExtendIsFirst(ys);
      assert xs == ys + [x];
      ExtendConcat([], ys, [x]);
      assert [x][1..] == [];
      assert Extend([], xs) == AppendUnique(ls, x);
      FirstMore(ls, ys, x);
    }
  }

  lemma FirstMore(ls: seq<Cid>, ys: seq<Cid>, x: Cid)
    requires FirstOccurrences(ls, ys)
    ensures FirstOccurrences(AppendUnique(ls, x), ys + [x])
  {
    var xs, ms := ys + [x], AppendUnique(ls, x);
    forall i, j, b | 0 <= i < j < |ms| && 0 <= b < |xs| && xs[b] == ms[j] ensures ms[i] in xs[..b] {
      if b < |ys| {
        assert xs[..b] == ys[..b] && ms[j] in ys;
      } else {
        assert xs[..b] == ys;
      }
    }
  }

  /** There is only one such list. */
  lemma {:induction false} FirstIsExtend(ls: seq<Cid>, xs: seq<Cid>)
    requires FirstOccurrences(ls, xs)
    ensures ls == Extend([], xs)
    decreases |xs|
  {
    if xs == [] {
      if ls != [] {
        SomeFirst(ls, xs);
      }
    } else {
      var n := |xs| - 1;
      var ys, x := xs[..n], xs[n];
      assert xs == ys + [x];
      ExtendConcat([], ys, [x]);
      assert [x][1..] == [];
      if x in ys {
        FirstOfFewer(ls, ys, x);
        FirstIsExtend(ls, ys);
      } else {
        LastIsNew(ls, ys, x);
        FirstIsExtend(ls[..|ls| - 1], ys);
      }
      ExtendIsFirst(ys);
    }
  }

  lemma SomeFirst(ls: seq<Cid>, xs: seq<Cid>)
    requires FirstOccurrences(ls, xs) && ls != []
    ensures xs != []
  {
    assert ls[0] in ls;
  }

  lemma EarlierFirst(ls: seq<Cid>, xs: seq<Cid>, k: nat)
    requires FirstOccurrences(ls, xs) && k < |ls| - 1
    ensures xs != [] && ls[k] in xs[..|xs| - 1]
  {
    var last := |ls| - 1;
    assert ls[last] in ls;
    var b :| 0 <= b < |xs| && xs[b] == ls[last];
    assert ls[k] in xs[..b];
    var a :| 0 <= a < b && xs[a] == ls[k];
    assert xs[..|xs| - 1][a] == ls[k];
  }

  lemma FirstOfFewer(ls: seq<Cid>, ys: seq<Cid>, x: Cid)
    requires FirstOccurrences(ls, ys + [x]) && x in ys
    ensures FirstOccurrences(ls, ys)
  {
    var xs := ys + [x];
    forall i, j, b | 0 <= i < j < |ls| && 0 <= b < |ys| && ys[b] == ls[j] ensures ls[i] in ys[..b] {
      assert xs[b] == ls[j] && xs[..b] == ys[..b];
    }
  }

  lemma LastIsNew(ls: seq<Cid>, ys: seq<Cid>, x: Cid)
    requires FirstOccurrences(ls, ys + [x]) && x !in ys
    ensures ls != [] && ls[|ls| - 1] == x && FirstOccurrences(ls[..|ls| - 1], ys)
  {
    var xs := ys + [x];
    assert xs[|ys|] == x && x in xs && x in ls;
    var last := |ls| - 1;
    var k :| 0 <= k < |ls| && ls[k] == x;
    assert xs[..|ys|] == ys;
    if k < last {
      EarlierFirst(ls, xs, k);
    }
    var ms := ls[..last];
    forall y ensures y in ms <==> y in ys {
      if y in ys {
        assert y in xs && y in ls && y != x;
      }
    }
    forall i, j, b | 0 <= i < j < |ms| && 0 <= b < |ys| && ys[b] == ms[j] ensures ms[i] in ys[..b] {
      assert xs[b] == ls[j] && xs[..b] == ys[..b];
    }
  }

  /**
    ExtractLinks gives the links of a block, in order and once each; it fails
    exactly on a dag-cbor block that does not decode.
  */
  lemma ExtractLinksExactly(c: Cid, data: Block)
    ensures forall ls :: ExtractLinks(c, data) == Some(ls) <==> LinksIn(c, data, ls)
    ensures ExtractLinks(c, data).None? <==> c.codec == DAG_CBOR && data.node.None?
  {
    if c.codec == DAG_CBOR && data.node.Some? {
      var xs := AllLinks(data.node.value);
      NodeLinksAreTheLinks(data.node.value);
      ExtendIsFirst(xs);
      forall ls | FirstOccurrences(ls, xs) ensures ls == Extend([], xs) {
        FirstIsExtend(ls, xs);
      }
    }
  }

  // ------------------------------------------------------------------ tables

  datatype TableData = TableData(
    hashes: map<Cid, BlobHash>, links: map<Cid, seq<Cid>>, revLinks: map<BlobHash, seq<Cid>>)
  {
    function Put(c: Cid, h: BlobHash, ls: seq<Cid>): TableData {
      TableData(hashes[c := h], links[c := ls], revLinks[h := AppendUnique(CidsForHash(h), c)])
    }

    function CidsForHash(h: BlobHash): seq<Cid> {
      if h in revLinks then revLinks[h] else []
    }

    /** Every recorded CID is listed under its hash, and each list names a CID once. */
    ghost predicate Listed() {
      && hashes.Keys == links.Keys
      && (forall c :: c in hashes ==> c in CidsForHash(hashes[c]))
      && (forall h :: Distinct(CidsForHash(h)))
    }
  }

  lemma PutKeepsListed(t: TableData, c: Cid, h: BlobHash, ls: seq<Cid>)
    requires t.Listed()
    ensures t.Put(c, h, ls).Listed()
  {
    var u := t.Put(c, h, ls);
    forall g ensures Distinct(u.CidsForHash(g)) && forall x :: x in t.CidsForHash(g) ==> x in u.CidsForHash(g) {
      assert g != h ==> u.CidsForHash(g) == t.CidsForHash(g);
    }
  }

  /** CIDsForHash gives exactly the CIDs recorded with a hash. */
  ghost predicate RevExact(t: TableData) {
    forall c, h :: c in t.CidsForHash(h) <==> Has(t, c, h)
  }

  predicate Has(t: TableData, c: Cid, h: BlobHash) { c in t.hashes && t.hashes[c] == h }

  lemma PutLists(t: TableData, c: Cid, h: BlobHash, ls: seq<Cid>, d: Cid, g: BlobHash)
    ensures d in t.Put(c, h, ls).CidsForHash(g) <==> d in t.CidsForHash(g) || (d == c && g == h)
  {
  }

  /**
    A Put keeps CIDsForHash exact if and only if it does not give a recorded CID
    another hash: under its old hash the CID stays listed.
  */
  lemma PutKeepsRevExactly(t: TableData, c: Cid, h: BlobHash, ls: seq<Cid>)
    requires RevExact(t)
    ensures RevExact(t.Put(c, h, ls)) <==> c !in t.hashes || t.hashes[c] == h
  {
    var u := t.Put(c, h, ls);
    forall d, g ensures d in u.CidsForHash(g) <==> Has(t, d, g) || (d == c && g == h) {
      PutLists(t, c, h, ls, d, g);
    }
    if c in t.hashes && t.hashes[c] != h {
      assert c in u.CidsForHash(t.hashes[c]) && !Has(u, c, t.hashes[c]);
    } else {
      forall d, g ensures d in u.CidsForHash(g) <==> Has(u, d, g) {
      }
    }
  }

  class Tables {
    var hashes: map<Cid, BlobHash>
    var links: map<Cid, seq<Cid>>
    var revLinks: map<BlobHash, seq<Cid>>

    function Data(): TableData
      reads this
    {
      TableData(hashes, links, revLinks)
    }

    constructor ()
      ensures Data() == TableData(map[], map[], map[]) && Data().Listed()
    {
      hashes, links, revLinks := map[], map[], map[];
    }

    method Put(c: Cid, h: BlobHash, ls: seq<Cid>)
      modifies this
      ensures Data() == old(Data()).Put(c, h, ls)
      ensures old(Data()).Listed() ==> Data().Listed()
    {
      if Data().Listed() {
        PutKeepsListed(Data(), c, h, ls);
      }
      hashes := hashes[c := h];
      links := links[c := ls];
      var rev := if h in revLinks then revLinks[h] else [];
      revLinks := revLinks[h := AppendUnique(rev, c)];
    }
  }
}
