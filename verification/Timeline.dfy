/** Timeline keys, and the document store whose inserts delete longer keys. */
module Timeline {
  import opened Symbols
  import opened Decimal

  /** A hash tile of height 8: level, position in the level, width. */
  datatype Tile = Tile(L: nat, N: nat, W: nat)

  predicate ValidTile(t: Tile) { 1 <= t.W <= 256 }

  const ENTRY: Bytes := Str("entry/")
  const CHECKPOINT: Bytes := Str("checkpoint/")
  const TILE: Bytes := Str("tile/8/")
  const SLASH: Sym := Chr('/')
  const DOT: Sym := Chr('.')
  const X: Sym := Chr('x')

  lemma Pow10Facts()
    ensures Pow10(3) == 1000 && Pow10(20) == 100_000_000_000_000_000_000
  {
    assert Pow10(6) == 1_000_000 && Pow10(10) == 10_000_000_000 && Pow10(14) == 100_000_000_000_000;
    assert Pow10(17) == 100_000_000_000_000_000;
  }

  function EntryKey(index: nat): Bytes
    requires index <= INT64_MAX
  {
    Pow10Facts();
    ENTRY + Fixed(index, 20)
  }

  function CheckpointKey(size: nat): Bytes
    requires size <= INT64_MAX
  {
    Pow10Facts();
    CHECKPOINT + Fixed(size, 20)
  }

  /** Three digits. */
  function D3(n: nat): Bytes
    requires n < 1000
  {
    Pow10Facts();
    Fixed(n, 3)
  }

  /** The leading groups of a tile position: "x001/" and so on. */
  function Groups(n: nat): Bytes {
    (if n >= 1000 then Groups(n / 1000) else []) + [X] + D3(n % 1000) + [SLASH]
  }

  /** A tile position in base 1000, as in tlog.Tile.Path. */
  function Position(n: nat): Bytes {
    (if n >= 1000 then Groups(n / 1000) else []) + D3(n % 1000)
  }

  function TilePath(t: Tile): Bytes {
    TILE + Print(t.L) + [SLASH] + Position(t.N)
  }

  function TileKey(t: Tile): Bytes
    requires ValidTile(t)
  {
    TilePath(t) + Str(".w/") + D3(t.W)
  }

  datatype Item = EntryItem(index: nat) | CheckpointItem(size: nat) | TileItem(tile: Tile)

  predicate ValidItem(k: Item) {
    match k
    case EntryItem(i) => i <= INT64_MAX
    case CheckpointItem(s) => s <= INT64_MAX
    case TileItem(t) => ValidTile(t)
  }

  function KeyOf(k: Item): Bytes
    requires ValidItem(k)
  {
    match k
    case EntryItem(i) => EntryKey(i)
    case CheckpointItem(s) => CheckpointKey(s)
    case TileItem(t) => TileKey(t)
  }

  /** Entry and checkpoint keys: the kind, then the number in twenty decimal digits. */
  lemma KeyLayout(n: nat)
    requires n <= INT64_MAX
    ensures |EntryKey(n)| == 26 && EntryKey(n)[..6] == Str("entry/")
    ensures AllDigits(EntryKey(n)[6..]) && Value(EntryKey(n)[6..]) == n
    ensures |CheckpointKey(n)| == 31 && CheckpointKey(n)[..11] == Str("checkpoint/")
    ensures AllDigits(CheckpointKey(n)[11..]) && Value(CheckpointKey(n)[11..]) == n
  {
    Pow10Facts();
    ValueFixed(n, 20);
    assert EntryKey(n)[6..] == Fixed(n, 20) && CheckpointKey(n)[11..] == Fixed(n, 20);
  }

  /** Tile keys: height and level first, and after the position the width in three digits. */
  lemma TileKeyLayout(t: Tile)
    requires ValidTile(t)
    ensures var key := TileKey(t); var n := |key|;
            && n >= 6 && Str("tile/8/") + Print(t.L) + Str("/") <= key
            && key[n - 6..n - 3] == Str(".w/") && AllDigits(key[n - 3..]) && Value(key[n - 3..]) == t.W
  {
    Pow10Facts();
    ValueFixed(t.W, 3);
    var key := TileKey(t);
    assert key[|key| - 3..] == Fixed(t.W, 3);
  }

  // ------------------------------------------------------------ prefix freedom

  lemma D3Injective(m: nat, n: nat)
    requires m < 1000 && n < 1000 && D3(m) == D3(n)
    ensures m == n
  {
    Pow10Facts();
    ValueFixed(m, 3);
    ValueFixed(n, 3);
  }

  /** The leading groups of a number below 1000 are empty. */
  function GroupsAbove(n: nat): Bytes {
    if n >= 1000 then Groups(n / 1000) else []
  }

  /** Two strings that end in a group of three digits: equal ones agree before and in it. */
  lemma LastGroup(a: Bytes, b: Bytes, m: nat, n: nat)
    requires m < 1000 && n < 1000 && a + ([X] + D3(m) + [SLASH]) == b + ([X] + D3(n) + [SLASH])
    ensures a == b && m == n
  {
    var s := a + ([X] + D3(m) + [SLASH]);
    assert |a| == |b| && a == s[..|a|] == b;
    assert s[|a| + 1..|a| + 4] == D3(m) && s[|a| + 1..|a| + 4] == D3(n);
    D3Injective(m, n);
  }

  lemma GroupsParts(n: nat)
    ensures Groups(n) == GroupsAbove(n) + ([X] + D3(n % 1000) + [SLASH])
  {
  }

  lemma {:induction false} GroupsInjective(m: nat, n: nat)
    requires Groups(m) == Groups(n)
    ensures m == n
    decreases m, 1
  {
    GroupsParts(m);
    GroupsParts(n);
    LastGroup(GroupsAbove(m), GroupsAbove(n), m % 1000, n % 1000);
    GroupsAboveInjective(m, n);
  }

  lemma GroupsAboveInjective(m: nat, n: nat)
    requires GroupsAbove(m) == GroupsAbove(n) && m % 1000 == n % 1000
    ensures m == n
    decreases m, 0
  {
    assert m >= 1000 ==> |Groups(m / 1000)| > 0;
    assert n >= 1000 ==> |Groups(n / 1000)| > 0;
    if m >= 1000 {
      GroupsInjective(m / 1000, n / 1000);
    }
  }

  lemma PositionInjective(m: nat, n: nat)
    requires Position(m) == Position(n)
    ensures m == n
  {
    var a, b := GroupsAbove(m), GroupsAbove(n);
    var s := Position(m);
    assert s == a + D3(m % 1000) && s == b + D3(n % 1000);
    assert |a| == |b| && a == s[..|a|] == b;
    assert s[|a|..] == D3(m % 1000) && s[|a|..] == D3(n % 1000);
    D3Injective(m % 1000, n % 1000);
    GroupsAboveInjective(m, n);
  }

  lemma {:induction false} NoDotInGroups(n: nat)
    ensures DOT !in Groups(n)
  {
    if n >= 1000 {
      NoDotInGroups(n / 1000);
    }
    assert forall s :: s in D3(n % 1000) ==> IsDigit(s);
  }

  lemma NoDotInPath(t: Tile)
    ensures DOT !in TilePath(t)
  {
    if t.N >= 1000 {
      NoDotInGroups(t.N / 1000);
    }
    assert forall s :: s in D3(t.N % 1000) ==> IsDigit(s);
    assert forall s :: s in Print(t.L) ==> IsDigit(s);
    assert DOT !in TILE;
  }

  /** Two strings with one separator each: a prefix agrees on both sides of it. */
  lemma SplitAtMark(a: Bytes, b: Bytes, x: Bytes, y: Bytes, mark: Sym)
    requires mark !in a && mark !in b
    requires a + [mark] + x <= b + [mark] + y
    ensures a == b && x <= y
  {
    var s, t := a + [mark] + x, b + [mark] + y;
    assert s[|a|] == mark && t[|b|] == mark;
    assert forall i :: 0 <= i < |a| ==> s[i] == a[i] && s[i] != mark;
    assert forall i :: 0 <= i < |b| ==> t[i] == b[i] && t[i] != mark;
    assert forall i :: 0 <= i < |s| ==> s[i] == t[i];
    assert |a| == |b|;
    assert s[..|a|] == a && t[..|a|] == b;
    assert s[|a| + 1..] == x && t[|a| + 1..|s|] == y[..|x|];
  }

  lemma TilePathParts(t: Tile)
    ensures TilePath(t) == TILE + (Print(t.L) + [SLASH] + Position(t.N))
    ensures SLASH !in Print(t.L)
  {
    assert forall s :: s in Print(t.L) ==> IsDigit(s);
  }

  lemma CommonStart(p: Bytes, a: Bytes, b: Bytes)
    requires p + a == p + b
    ensures a == b
  {
    assert (p + a)[|p|..] == a && (p + b)[|p|..] == b;
  }

  lemma TilePathInjective(t: Tile, u: Tile)
    requires TilePath(t) == TilePath(u)
    ensures t.L == u.L && t.N == u.N
  {
    var a, b := Print(t.L) + [SLASH] + Position(t.N), Print(u.L) + [SLASH] + Position(u.N);
    TilePathParts(t);
    TilePathParts(u);
    CommonStart(TILE, a, b);
    SplitAtMark(Print(t.L), Print(u.L), Position(t.N), Position(u.N), SLASH);
    SplitAtMark(Print(u.L), Print(t.L), Position(u.N), Position(t.N), SLASH);
    ValuePrint(t.L);
    ValuePrint(u.L);
    PositionInjective(t.N, u.N);
  }

  lemma TileKeyPrefix(t: Tile, u: Tile)
    requires ValidTile(t) && ValidTile(u) && TileKey(t) <= TileKey(u)
    ensures t == u
  {
    var tail := [Chr('w'), SLASH];
    assert Str(".w/") == [DOT] + tail;
    var x, y := tail + D3(t.W), tail + D3(u.W);
    assert TileKey(t) == TilePath(t) + [DOT] + x;
    assert TileKey(u) == TilePath(u) + [DOT] + y;
    NoDotInPath(t);
    NoDotInPath(u);
    SplitAtMark(TilePath(t), TilePath(u), x, y, DOT);
    TilePathInjective(t, u);
    assert x == y;
    CommonStart(tail, D3(t.W), D3(u.W));
    D3Injective(t.W, u.W);
  }

  lemma FixedKeyPrefix(form: Bytes, m: nat, n: nat)
    requires m <= INT64_MAX && n <= INT64_MAX
    requires Pow10(20) > INT64_MAX
    requires form + Fixed(m, 20) <= form + Fixed(n, 20)
    ensures m == n
  {
    var a, b := form + Fixed(m, 20), form + Fixed(n, 20);
    assert a == b;
    assert a[|form|..] == Fixed(m, 20) && b[|form|..] == Fixed(n, 20);
    ValueFixed(m, 20);
    ValueFixed(n, 20);
  }

  lemma KeyStarts(k: Item)
    requires ValidItem(k)
    ensures KeyOf(k) != []
    ensures KeyOf(k)[0] == if k.EntryItem? then Chr('e') else if k.CheckpointItem? then Chr('c') else Chr('t')
  {
    assert ENTRY[0] == Chr('e') && CHECKPOINT[0] == Chr('c') && TILE[0] == Chr('t');
  }

  /** No timeline key is a prefix of another: equal keys mean the same item. */
  lemma KeysPrefixFree(k: Item, l: Item)
    requires ValidItem(k) && ValidItem(l) && KeyOf(k) <= KeyOf(l)
    ensures k == l
  {
    KeyStarts(k);
    KeyStarts(l);
    Pow10Facts();
    match (k, l)
    case (EntryItem(i), EntryItem(j)) => FixedKeyPrefix(ENTRY, i, j);
    case (CheckpointItem(i), CheckpointItem(j)) => FixedKeyPrefix(CHECKPOINT, i, j);
    case (TileItem(t), TileItem(u)) => TileKeyPrefix(t, u);
    case _ =>
  }

  /** Checkpoint keys compare as strings the way their sizes compare. */
  lemma CheckpointKeyOrder(m: nat, n: nat)
    requires m <= INT64_MAX && n <= INT64_MAX
    ensures Less(CheckpointKey(m), CheckpointKey(n)) <==> m < n
  {
    Pow10Facts();
    LessPrefix(CHECKPOINT, Fixed(m, 20), Fixed(n, 20));
    FixedOrder(m, n, 20);
  }

  // --------------------------------------------------------- the document store

  /** What a key maps to: the hash of a blob, which is the blob itself here, and its length. */
  datatype Record = Record(blob: Bytes, length: nat)

  type Doc = map<Bytes, Record>

  /** Inserting a key deletes every key that extends it. */
  function DocPut(doc: Doc, key: Bytes, r: Record): Doc {
    (map k | k in doc && !(key <= k) :: doc[k])[key := r]
  }

  ghost predicate TimelineKeys(doc: Doc) {
    forall k :: k in doc ==> exists item :: ValidItem(item) && KeyOf(item) == k
  }

  /** The deleting insert is an ordinary map update exactly if no other key of the document extends the new one. */
  lemma PutIsUpdateExactly(doc: Doc, key: Bytes, r: Record)
    ensures DocPut(doc, key, r) == doc[key := r] <==> forall k :: k in doc && key <= k ==> k == key
  {
    if DocPut(doc, key, r) == doc[key := r] {
      forall k | k in doc && key <= k ensures k == key {
        assert k in doc[key := r];
      }
    } else {
      var k :| k in doc[key := r] && (k !in DocPut(doc, key, r) || doc[key := r][k] != DocPut(doc, key, r)[k]);
      assert k in doc && key <= k && k != key;
    }
  }

  /** So it is on timeline keys. */
  lemma PutIsUpdate(doc: Doc, item: Item, r: Record)
    requires TimelineKeys(doc) && ValidItem(item)
    ensures DocPut(doc, KeyOf(item), r) == doc[KeyOf(item) := r]
    ensures TimelineKeys(doc[KeyOf(item) := r])
  {
    var key := KeyOf(item);
    forall k | k in doc && key <= k ensures k == key {
      var other :| ValidItem(other) && KeyOf(other) == k;
      KeysPrefixFree(item, other);
    }
    PutIsUpdateExactly(doc, key, r);
  }

  lemma KeysDiffer(k: Item, l: Item)
    requires ValidItem(k) && ValidItem(l) && k != l
    ensures KeyOf(k) != KeyOf(l)
  {
    if KeyOf(k) == KeyOf(l) {
      KeysPrefixFree(k, l);
    }
  }
}
