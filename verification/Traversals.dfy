/** Which CIDs a request visits, and in what order. */
module Traversals {
  import opened Wrappers
  import opened Seqs
  import opened Sets
  import opened Dags

  datatype Filter = Filter(all: bool, noRaw: bool, justRaw: bool, exclude: Option<seq<nat>>)

  const FILTER_ALL := Filter(true, false, false, None)

  /** includeCID */
  predicate Include(f: Filter, c: Cid) {
    if f.all then true
    else if f.noRaw then !Raw(c)
    else if f.justRaw then Raw(c)
    else if f.exclude.Some? then c.codec !in f.exclude.value
    else true
  }

  datatype Inline = Inline(all: bool, noRaw: bool, exclude: Option<seq<nat>>, none: bool)

  /** inlinePredicate */
  predicate Inlined(i: Inline, c: Cid) {
    if i.all then true
    else if i.noRaw then !Raw(c)
    else if i.exclude.Some? then c.codec !in i.exclude.value
    else false
  }

  datatype FullOpts = FullOpts(root: Cid, visited: seq<Cid>, filter: Option<Filter>) {
    function TheFilter(): Filter { if filter.None? then FILTER_ALL else filter.value }
    function Visited(): set<Cid> { set c | c in visited }
  }

  /** Decoding sets exactly one of the two. */
  datatype TraversalOpts = TraversalOpts(sequence: Option<seq<Cid>>, full: Option<FullOpts>)

  type LinkMap = map<Cid, seq<Cid>>

  // ------------------------------------------------------ recursive pre-order

  /** What a visit goes on to: nothing below a raw or unknown CID. */
  function Children(links: LinkMap, c: Cid): seq<Cid> {
    if Raw(c) || c !in links then [] else links[c]
  }

  datatype Visit = Visit(out: seq<Cid>, seen: set<Cid>)

  lemma SmallerRest<T>(keys: set<T>, seen: set<T>, more: set<T>)
    requires seen <= more
    ensures |keys - more| <= |keys - seen|
    ensures (exists x :: x in keys && x in more && x !in seen) ==> |keys - more| < |keys - seen|
  {
    var a, b := keys - more, keys - seen;
    assert a <= b;
    SubsetSize(a, b);
  }

  /** Left-to-right pre-order over a list of CIDs, never entering one already seen. */
  function Preorder(links: LinkMap, cs: seq<Cid>, seen: set<Cid>): (r: Visit)
    ensures seen <= r.seen
    decreases |links.Keys - seen|, |cs|
  {
    if cs == [] then Visit([], seen)
    else if cs[0] in seen then Preorder(links, cs[1..], seen)
    else
      SmallerRest(links.Keys, seen, seen + {cs[0]});
      var below := Preorder(links, Children(links, cs[0]), seen + {cs[0]});
      SmallerRest(links.Keys, seen, below.seen);
      var after := Preorder(links, cs[1..], below.seen);
      Visit([cs[0]] + below.out + after.out, after.seen)
  }

  /** Visiting a list whose first CID is new. */
  lemma PreorderOfNew(links: LinkMap, cs: seq<Cid>, seen: set<Cid>)
    requires cs != [] && cs[0] !in seen
    ensures var below := Preorder(links, Children(links, cs[0]), seen + {cs[0]});
            var after := Preorder(links, cs[1..], below.seen);
            && Preorder(links, cs, seen) == Visit([cs[0]] + below.out + after.out, after.seen)
            && |links.Keys - below.seen| <= |links.Keys - seen|
            && seen + {cs[0]} <= below.seen
            && (|links.Keys - (seen + {cs[0]})| < |links.Keys - seen|
                || (|links.Keys - (seen + {cs[0]})| == |links.Keys - seen| && |Children(links, cs[0])| < |cs|))
  {
    SmallerRest(links.Keys, seen, seen + {cs[0]});
    var below := Preorder(links, Children(links, cs[0]), seen + {cs[0]});
    SmallerRest(links.Keys, seen, below.seen);
  }

  lemma ConcatNew(links: LinkMap, a: seq<Cid>, b: seq<Cid>, seen: set<Cid>, below: Visit, after: Visit, second: Visit)
    requires a != [] && a[0] !in seen && below == Preorder(links, Children(links, a[0]), seen + {a[0]})
    requires Preorder(links, a[1..] + b, below.seen) == Visit(after.out + second.out, second.seen)
    ensures Preorder(links, a + b, seen) == Visit([a[0]] + below.out + after.out + second.out, second.seen)
  {
    assert (a + b)[1..] == a[1..] + b && (a + b)[0] == a[0];
    PreorderOfNew(links, a + b, seen);
    Assoc([a[0]] + below.out, after.out, second.out);
  }

  lemma ConcatNone(links: LinkMap, a: seq<Cid>, b: seq<Cid>, seen: set<Cid>)
    requires a == []
    ensures Preorder(links, a, seen) == Visit([], seen)
    ensures Preorder(links, a + b, seen) == Visit([] + Preorder(links, b, seen).out, Preorder(links, b, seen).seen)
  {
    assert a + b == b;
    Units(Preorder(links, b, seen).out);
  }

  lemma ConcatSeen(links: LinkMap, a: seq<Cid>, b: seq<Cid>, seen: set<Cid>)
    requires a != [] && a[0] in seen
    ensures Preorder(links, a, seen) == Preorder(links, a[1..], seen)
    ensures Preorder(links, a + b, seen) == Preorder(links, a[1..] + b, seen)
  {
    assert (a + b)[1..] == a[1..] + b && (a + b)[0] == a[0];
  }

  /** The visited set is threaded through from one list to the next. */
  lemma {:induction false} PreorderConcat(
      links: LinkMap, a: seq<Cid>, b: seq<Cid>, seen: set<Cid>, first: Visit, second: Visit)
    requires first == Preorder(links, a, seen) && second == Preorder(links, b, first.seen)
    ensures Preorder(links, a + b, seen) == Visit(first.out + second.out, second.seen)
    decreases |links.Keys - seen|, |a|
  {
    if a == [] {
      ConcatNone(links, a, b, seen);
    } else if a[0] in seen {
      ConcatSeen(links, a, b, seen);
      PreorderConcat(links, a[1..], b, seen, first, second);
    } else {
      PreorderOfNew(links, a, seen);
      var below := Preorder(links, Children(links, a[0]), seen + {a[0]});
      var after := Preorder(links, a[1..], below.seen);
      PreorderConcat(links, a[1..], b, below.seen, after, second);
      ConcatNew(links, a, b, seen, below, after, second);
    }
  }

  /** One step of a walk with a stack of pending CIDs, topmost first. */
  lemma PreorderStep(links: LinkMap, c: Cid, rest: seq<Cid>, seen: set<Cid>)
    ensures c in seen ==> Preorder(links, [c] + rest, seen) == Preorder(links, rest, seen)
    ensures c !in seen ==>
              var next := Preorder(links, Children(links, c) + rest, seen + {c});
              Preorder(links, [c] + rest, seen) == Visit([c] + next.out, next.seen)
  {
    assert ([c] + rest)[1..] == rest;
    if c !in seen {
      var below := Preorder(links, Children(links, c), seen + {c});
      PreorderConcat(links, Children(links, c), rest, seen + {c}, below, Preorder(links, rest, below.seen));
      Assoc([c], below.out, Preorder(links, rest, below.seen).out);
    }
  }

  /** CIDs that lead nowhere are visited in the order in which they are listed. */
  lemma {:induction false} LeavesInOrder(links: LinkMap, cs: seq<Cid>, seen: set<Cid>)
    requires Distinct(cs) && forall c :: c in cs ==> c !in seen && (c !in links || links[c] == [])
    ensures Preorder(links, cs, seen).out == cs
    decreases |cs|
  {
    if cs != [] {
      var c, rest := cs[0], cs[1..];
      assert c in cs && c !in rest && forall d :: d in rest ==> d in cs;
      LeavesInOrder(links, rest, seen + {c});
      OneLeaf(links, c, rest, seen);
      assert cs == [c] + rest;
    }
  }

  lemma OneLeaf(links: LinkMap, c: Cid, rest: seq<Cid>, seen: set<Cid>)
    requires c !in seen && (c !in links || links[c] == [])
    ensures Preorder(links, [c] + rest, seen).out == [c] + Preorder(links, rest, seen + {c}).out
  {
    PreorderStep(links, c, rest, seen);
    assert Children(links, c) + rest == rest;
  }

  /** A CID comes before those it links to, and these come in the order of its links. */
  lemma LinksInOrder(links: LinkMap, c: Cid, seen: set<Cid>)
    requires c.codec != RAW && c in links && c !in seen && c !in links[c] && Distinct(links[c])
    requires forall d :: d in links[c] ==> d !in seen && (d !in links || links[d] == [])
    ensures Preorder(links, [c], seen).out == [c] + links[c]
  {
    PreorderStep(links, c, [], seen);
    LeavesInOrder(links, links[c], seen + {c});
    assert links[c] + [] == links[c] && [c] + [] == [c];
  }

  // ------------------------------------------------------ what is visited

  lemma {:induction false} PreorderSets(links: LinkMap, cs: seq<Cid>, seen: set<Cid>)
    ensures var r := Preorder(links, cs, seen);
            && Distinct(r.out)
            && (forall c :: c in r.out ==> c !in seen)
            && (forall c :: c in r.seen <==> c in seen || c in r.out)
    decreases |links.Keys - seen|, |cs|
  {
    if cs == [] {
    } else if cs[0] in seen {
      PreorderSets(links, cs[1..], seen);
    } else {
      SmallerRest(links.Keys, seen, seen + {cs[0]});
      PreorderSets(links, Children(links, cs[0]), seen + {cs[0]});
      var below := Preorder(links, Children(links, cs[0]), seen + {cs[0]});
      SmallerRest(links.Keys, seen, below.seen);
      PreorderSets(links, cs[1..], below.seen);
      var after := Preorder(links, cs[1..], below.seen);
      DistinctConcat([cs[0]], below.out);
      DistinctConcat([cs[0]] + below.out, after.out);
    }
  }

  lemma DistinctConcat<T>(a: seq<T>, b: seq<T>)
    requires Distinct(a) && Distinct(b) && forall x :: x in a ==> x !in b
    ensures Distinct(a + b)
  {
    var s := a + b;
    forall i, j | 0 <= i < j < |s| ensures s[i] != s[j] {
      if i < |a| <= j {
        assert s[i] in a && s[j] in b;
      }
    }
  }

  /** Everything asked for is seen in the end, and so are the children of all that was visited. */
  ghost predicate Closed(links: LinkMap, cs: seq<Cid>, r: Visit) {
    && (forall c :: c in cs ==> c in r.seen)
    && (forall c, d :: c in r.out && d in Children(links, c) ==> d in r.seen)
  }

  lemma ClosedJoin(links: LinkMap, cs: seq<Cid>, below: Visit, after: Visit)
    requires cs != [] && cs[0] in below.seen && below.seen <= after.seen
    requires Closed(links, Children(links, cs[0]), below) && Closed(links, cs[1..], after)
    ensures Closed(links, cs, Visit([cs[0]] + below.out + after.out, after.seen))
  {
    assert forall c :: c in cs ==> c == cs[0] || c in cs[1..];
  }

  lemma {:induction false} PreorderCloses(links: LinkMap, cs: seq<Cid>, seen: set<Cid>)
    ensures Closed(links, cs, Preorder(links, cs, seen))
    decreases |links.Keys - seen|, |cs|
  {
    if cs == [] {
    } else if cs[0] in seen {
      PreorderCloses(links, cs[1..], seen);
      assert forall c :: c in cs ==> c == cs[0] || c in cs[1..];
    } else {
      PreorderOfNew(links, cs, seen);
      var below := Preorder(links, Children(links, cs[0]), seen + {cs[0]});
      PreorderCloses(links, Children(links, cs[0]), seen + {cs[0]});
      PreorderCloses(links, cs[1..], below.seen);
      ClosedJoin(links, cs, below, Preorder(links, cs[1..], below.seen));
    }
  }

  /** A path along links that stays out of `avoid` and goes through no raw CID. */
  ghost predicate Path(links: LinkMap, avoid: set<Cid>, p: seq<Cid>) {
    && p != []
    && (forall i :: 0 <= i < |p| ==> p[i] !in avoid)
    && (forall i :: 0 <= i < |p| - 1 ==> p[i + 1] in Children(links, p[i]))
  }

  ghost predicate Reachable(links: LinkMap, avoid: set<Cid>, cs: seq<Cid>, c: Cid) {
    exists p :: Path(links, avoid, p) && p[0] in cs && p[|p| - 1] == c
  }

  lemma {:induction false} PathIsSeen(links: LinkMap, cs: seq<Cid>, avoid: set<Cid>, p: seq<Cid>, i: nat)
    requires Path(links, avoid, p) && p[0] in cs && i < |p|
    ensures p[i] in Preorder(links, cs, avoid).out
  {
    PreorderCloses(links, cs, avoid);
    PreorderSets(links, cs, avoid);
    if i > 0 {
      PathIsSeen(links, cs, avoid, p, i - 1);
      assert p[(i - 1) + 1] in Children(links, p[i - 1]);
    }
  }

  lemma PathExtends(links: LinkMap, avoid: set<Cid>, head: Cid, p: seq<Cid>)
    requires Path(links, avoid + {head}, p) && p[0] in Children(links, head) && head !in avoid
    ensures Path(links, avoid, [head] + p) && ([head] + p)[|[head] + p| - 1] == p[|p| - 1]
  {
    var q := [head] + p;
    forall i | 0 <= i < |q| - 1 ensures q[i + 1] in Children(links, q[i]) {
      assert i > 0 ==> p[(i - 1) + 1] in Children(links, p[i - 1]);
    }
  }

  /** A path to something below the first CID, or to the rest, is a path for the whole list. */
  lemma ReachJoin(links: LinkMap, cs: seq<Cid>, avoid: set<Cid>, more: set<Cid>, c: Cid)
    requires cs != [] && cs[0] !in avoid && avoid <= more
    requires || c == cs[0]
             || Reachable(links, avoid + {cs[0]}, Children(links, cs[0]), c)
             || Reachable(links, more, cs[1..], c)
    ensures Reachable(links, avoid, cs, c)
  {
    if c == cs[0] {
      assert Path(links, avoid, [c]);
    } else if Reachable(links, avoid + {cs[0]}, Children(links, cs[0]), c) {
      var p :| Path(links, avoid + {cs[0]}, p) && p[0] in Children(links, cs[0]) && p[|p| - 1] == c;
      PathExtends(links, avoid, cs[0], p);
    } else {
      var p :| Path(links, more, p) && p[0] in cs[1..] && p[|p| - 1] == c;
      assert Path(links, avoid, p);
    }
  }

  lemma {:induction false} VisitedIsReachable(links: LinkMap, cs: seq<Cid>, avoid: set<Cid>, c: Cid)
    requires c in Preorder(links, cs, avoid).out
    ensures Reachable(links, avoid, cs, c)
    decreases |links.Keys - avoid|, |cs|
  {
    if cs[0] in avoid {
      VisitedIsReachable(links, cs[1..], avoid, c);
      var p :| Path(links, avoid, p) && p[0] in cs[1..] && p[|p| - 1] == c;
      assert p[0] in cs;
    } else {
      PreorderOfNew(links, cs, avoid);
      var below := Preorder(links, Children(links, cs[0]), avoid + {cs[0]});
      if c in below.out {
        VisitedIsReachable(links, Children(links, cs[0]), avoid + {cs[0]}, c);
      } else if c != cs[0] {
        VisitedIsReachable(links, cs[1..], below.seen, c);
      }
      ReachJoin(links, cs, avoid, below.seen, c);
    }
  }

  /** A CID is visited exactly when a path leads to it, and then once; cycles do no harm. */
  lemma VisitsExactlyReachable(links: LinkMap, cs: seq<Cid>, avoid: set<Cid>)
    ensures forall c :: c in Preorder(links, cs, avoid).out <==> Reachable(links, avoid, cs, c)
    ensures Distinct(Preorder(links, cs, avoid).out)
  {
    PreorderSets(links, cs, avoid);
    forall c ensures c in Preorder(links, cs, avoid).out <==> Reachable(links, avoid, cs, c) {
      if c in Preorder(links, cs, avoid).out {
        VisitedIsReachable(links, cs, avoid, c);
      }
      if Reachable(links, avoid, cs, c) {
        var p :| Path(links, avoid, p) && p[0] in cs && p[|p| - 1] == c;
        PathIsSeen(links, cs, avoid, p, |p| - 1);
      }
    }
  }

  // ---------------------------------------------------------- the stack loop

  function Select(f: Filter, cs: seq<Cid>): seq<Cid> {
    if cs == [] then []
    else (if Include(f, cs[0]) then [cs[0]] else []) + Select(f, cs[1..])
  }

  lemma SelectCons(f: Filter, c: Cid, cs: seq<Cid>)
    ensures Select(f, [c] + cs) == (if Include(f, c) then [c] else []) + Select(f, cs)
  {
    assert ([c] + cs)[1..] == cs;
  }

  lemma {:induction false} Selected(f: Filter, cids: seq<Cid>)
    ensures forall c :: c in Select(f, cids) <==> c in cids && Include(f, c)
    ensures Distinct(cids) ==> Distinct(Select(f, cids))
  {
    if cids != [] {
      Selected(f, cids[1..]);
      assert forall c :: c in cids <==> c == cids[0] || c in cids[1..];
      assert Distinct(cids) ==> Distinct(cids[1..]);
    }
  }

  /** The stack's content, topmost first. */
  function TopFirst(stack: seq<Cid>): seq<Cid> {
    if stack == [] then [] else [stack[|stack| - 1]] + TopFirst(stack[..|stack| - 1])
  }

  lemma TopFirstPush(stack: seq<Cid>, c: Cid)
    ensures TopFirst(stack + [c]) == [c] + TopFirst(stack)
  {
    assert (stack + [c])[..|stack|] == stack;
  }

  /** Pushing links from the last to the first puts them, in order, before what was there. */
  method PushLinks(stack: seq<Cid>, links: seq<Cid>) returns (r: seq<Cid>)
    ensures TopFirst(r) == links + TopFirst(stack)
  {
    r := stack;
    for i := |links| downto 0
      invariant TopFirst(r) == links[i..] + TopFirst(stack)
    {
      TopFirstPush(r, links[i]);
      r := r + [links[i]];
      Assoc([links[i]], links[i + 1..], TopFirst(stack));
      assert links[i..] == [links[i]] + links[i + 1..];
    }
    assert links[0..] == links;
  }

  /** What fullTraversal returns: the recursive pre-order, filtered. */
  function Traversed(links: LinkMap, opts: FullOpts): seq<Cid> {
    Select(opts.TheFilter(), Preorder(links, [opts.root], opts.Visited()).out)
  }

  /** What a request's filter leaves of what is visited, mode by mode; without a filter everything. */
  lemma FilterKeeps(links: LinkMap, opts: FullOpts)
    ensures var f, all := opts.filter, Preorder(links, [opts.root], opts.Visited()).out;
            && Distinct(Traversed(links, opts))
            && (forall c :: c in Traversed(links, opts) ==> c in all)
            && forall c :: c in all ==>
                 (c in Traversed(links, opts) <==>
                    || f.None? || f.value.all
                    || (f.value.noRaw && c.codec != RAW)
                    || (!f.value.noRaw && f.value.justRaw && c.codec == RAW)
                    || (!f.value.noRaw && !f.value.justRaw
                        && (f.value.exclude.Some? ==> c.codec !in f.value.exclude.value)))
  {
    PreorderSets(links, [opts.root], opts.Visited());
    Selected(opts.TheFilter(), Preorder(links, [opts.root], opts.Visited()).out);
  }

  method FullTraversal(opts: FullOpts, tables: Tables) returns (out: seq<Cid>)
    ensures out == Traversed(tables.links, opts)
  {
    var filter := FILTER_ALL;
    if opts.filter.Some? {
      filter := opts.filter.value;
    }
    var visited := set c | c in opts.visited;
    var stack := [opts.root];
    out := [];
    assert TopFirst(stack) == [opts.root];
    Units(Traversed(tables.links, opts));
    while stack != []
      invariant out + Select(filter, Preorder(tables.links, TopFirst(stack), visited).out)
                == Traversed(tables.links, opts)
      decreases |tables.links.Keys - visited|, |stack|
    {
      var c := stack[|stack| - 1];
      ghost var seen, was := visited, out;
      stack := stack[..|stack| - 1];
      PreorderStep(tables.links, c, TopFirst(stack), visited);
      if c in visited {
        continue;
      }
      visited := visited + {c};
      SmallerRest(tables.links.Keys, seen, visited);
      ghost var next := Preorder(tables.links, Children(tables.links, c) + TopFirst(stack), visited);
      SelectCons(filter, c, next.out);
      if Include(filter, c) {
        out := out + [c];
        Assoc(was, [c], Select(filter, next.out));
      } else {
        Units(Select(filter, next.out));
      }
      assert out + Select(filter, next.out) == Traversed(tables.links, opts);
      Units(TopFirst(stack));
      if Raw(c) {
        continue;
      }
      if c !in tables.links {
        continue;
      }
      stack := PushLinks(stack, tables.links[c]);
    }
    Units(out);
  }

  /** traversalCIDs */
  method TraversalCids(opts: TraversalOpts, tables: Tables) returns (r: Option<seq<Cid>>)
    ensures r == TraversalOf(tables.links, opts)
  {
    if opts.sequence.Some? {
      return opts.sequence;
    } else if opts.full.Some? {
      var out := FullTraversal(opts.full.value, tables);
      return Some(out);
    } else {
      return None;
    }
  }

  function TraversalOf(links: LinkMap, opts: TraversalOpts): Option<seq<Cid>> {
    if opts.sequence.Some? then opts.sequence
    else if opts.full.Some? then Some(Traversed(links, opts.full.value))
    else None
  }
}
