/** Receipt verification: trie keys, their sorted order, and what a matching
    receipts root proves about the receipts. */
module Trie {
  import opened Types
  import opened Rlp
  import opened Receipts
  import Codec

  // ── Keys ───────────────────────────────────────────────────────────────────

  /** `to_be_bytes` of a `width`-byte integer. */
  function ToBeBytes(n: nat, width: nat): (s: Bytes)
    ensures |s| == width
  {
    if width == 0 then [] else ToBeBytes(n / 256, width - 1) + [n % 256]
  }

  function FirstNonzero(s: Bytes): (i: nat)
    requires s != []
    ensures i < |s|
  {
    if s[0] != 0 || |s| == 1 then 0 else 1 + FirstNonzero(s[1..])
  }

  function RlpEncodeIndex(index: U64): Bytes {
    if index == 0 then [0x80]
    else if index < 0x80 then [index]
    else
      var bytes := ToBeBytes(index, 8);
      var trimmed := bytes[FirstNonzero(bytes)..];
      [0x80 + |trimmed|] + trimmed
  }

  lemma {:induction false} ToBeBytesPads(n: nat, width: nat)
    requires n < Pow256(width)
    ensures |BeBytes(n)| <= width
    ensures ToBeBytes(n, width) == seq(width - |BeBytes(n)|, _ => 0) + BeBytes(n)
  {
    BeLength(n, width);
    if width > 0 {
      ToBeBytesPads(n / 256, width - 1);
      if n == 0 {
        assert ToBeBytes(n, width) == seq(width - 1, _ => 0) + [0];
      } else {
        assert BeBytes(n) == BeBytes(n / 256) + [n % 256];
      }
    }
  }

  lemma {:induction false} SkipZeros(zeros: nat, s: Bytes)
    requires s != [] && s[0] != 0
    ensures FirstNonzero(seq(zeros, _ => 0) + s) == zeros
    decreases zeros
  {
    var padded := seq(zeros, _ => 0) + s;
    if zeros > 0 {
      SkipZeros(zeros - 1, s);
      assert padded[1..] == seq(zeros - 1, _ => 0) + s;
    }
  }

  lemma SingleByte(n: nat)
    requires |BeBytes(n)| == 1
    ensures BeBytes(n) == [n]
  {
    assert BeBytes(n / 256) == [];
  }

  lemma TrimmedIsMinimal(index: U64)
    requires index > 0
    ensures var bytes := ToBeBytes(index, 8); bytes[FirstNonzero(bytes)..] == BeBytes(index)
  {
    hide BeBytes, ToBeBytes, FirstNonzero;
    LengthBytes(index);
    Pow256Eight();
    ToBeBytesPads(index, 8);
    var s := BeBytes(index);
    SkipZeros(8 - |s|, s);
  }

  /** The hand-written key is the canonical RLP encoding of the index. */
  lemma KeyIsRlp(index: U64)
    ensures RlpEncodeIndex(index) == EncodeUint(index)
  {
    hide BeBytes, ToBeBytes, FirstNonzero;
    if index == 0 {
      BeLength(0, 0);
    } else {
      LengthBytes(index);
      TrimmedIsMinimal(index);
      if |BeBytes(index)| == 1 {
        SingleByte(index);
      }
      if index < 0x80 {
        BeLength(index, 1);
        Pow256Eight();
      }
    }
  }

  /** No key is a prefix of another key, so in particular keys are distinct. */
  lemma KeysPrefixFree(i: U64, j: U64)
    requires RlpEncodeIndex(i) <= RlpEncodeIndex(j)
    ensures i == j
  {
    KeyIsRlp(i);
    KeyIsRlp(j);
    Pow256Eight();
    var a, b := EncodeUint(i), EncodeUint(j);
    UintRoundTrip(i, 8, b[|a|..]);
    UintRoundTrip(j, 8, []);
    assert b + [] == b;
    assert a + b[|a|..] == b;
  }

  // ── Order ──────────────────────────────────────────────────────────────────

  /** Lexicographic order of byte strings. */
  predicate LexLt(a: seq<int>, b: seq<int>) {
    b != [] && (a == [] || a[0] < b[0] || (a[0] == b[0] && LexLt(a[1..], b[1..])))
  }

  lemma {:induction false} LexTransitive(a: seq<int>, b: seq<int>, c: seq<int>)
    requires LexLt(a, b) && LexLt(b, c)
    ensures LexLt(a, c)
  {
    if a != [] && a[0] == b[0] == c[0] {
      LexTransitive(a[1..], b[1..], c[1..]);
    }
  }

  lemma {:induction false} LexTotal(a: seq<int>, b: seq<int>)
    ensures LexLt(a, b) || LexLt(b, a) || a == b
    ensures !(LexLt(a, b) && LexLt(b, a))
  {
    if a != [] && b != [] {
      LexTotal(a[1..], b[1..]);
      assert a == [a[0]] + a[1..] && b == [b[0]] + b[1..];
    }
  }

  lemma {:induction false} LexSnoc(a: seq<int>, b: seq<int>, x: int, y: int)
    requires |a| == |b|
    ensures LexLt(a + [x], b + [y]) <==> LexLt(a, b) || (a == b && x < y)
  {
    if a != [] {
      LexSnoc(a[1..], b[1..], x, y);
      assert (a + [x])[1..] == a[1..] + [x] && (b + [y])[1..] == b[1..] + [y];
      assert a == b <==> a[0] == b[0] && a[1..] == b[1..] by {
        assert a == [a[0]] + a[1..] && b == [b[0]] + b[1..];
      }
    }
  }

  /** Equally long big-endian forms compare like the numbers they stand for. */
  lemma {:induction false} BeOrder(m: nat, n: nat)
    requires |BeBytes(m)| == |BeBytes(n)|
    ensures LexLt(BeBytes(m), BeBytes(n)) <==> m < n
  {
    if m != 0 && n != 0 {
      BeOrder(m / 256, n / 256);
      LexSnoc(BeBytes(m / 256), BeBytes(n / 256), m % 256, n % 256);
      assert m / 256 == n / 256 <==> BeBytes(m / 256) == BeBytes(n / 256) by {
        BeRoundTrip(m / 256);
        BeRoundTrip(n / 256);
      }
    }
  }

  lemma ShorterIsSmaller(m: nat, n: nat)
    requires |BeBytes(m)| < |BeBytes(n)|
    ensures m < n
  {
    BeLength(m, |BeBytes(m)|);
    BeLength(n, |BeBytes(m)|);
  }

  /** Place of an index in key order: 1 to 127, then 0, then 128 upward. */
  function Rank(index: U64): nat {
    if index == 0 then 127 else if index < 128 then index - 1 else index
  }

  lemma LongKey(index: U64)
    requires index >= 0x80
    ensures var s := BeBytes(index); 1 <= |s| <= 8 && RlpEncodeIndex(index) == [0x80 + |s|] + s
  {
    hide BeBytes;
    LengthBytes(index);
    TrimmedIsMinimal(index);
  }

  lemma LongKeyOrder(i: U64, j: U64)
    requires i >= 0x80 && j >= 0x80
    ensures LexLt(RlpEncodeIndex(i), RlpEncodeIndex(j)) <==> i < j
  {
    hide RlpEncodeIndex;
    LongKey(i);
    LongKey(j);
    var a, b := BeBytes(i), BeBytes(j);
    assert ([0x80 + |a|] + a)[1..] == a && ([0x80 + |b|] + b)[1..] == b;
    if |a| == |b| {
      BeOrder(i, j);
    } else if |a| < |b| {
      ShorterIsSmaller(i, j);
    } else {
      ShorterIsSmaller(j, i);
    }
  }

  /** Key order is rank order. */
  lemma KeyOrder(i: U64, j: U64)
    ensures LexLt(RlpEncodeIndex(i), RlpEncodeIndex(j)) <==> Rank(i) < Rank(j)
  {
    if i >= 0x80 && j >= 0x80 {
      LongKeyOrder(i, j);
    } else {
      hide BeBytes;
      if i >= 0x80 {
        LongKey(i);
      }
      if j >= 0x80 {
        LongKey(j);
      }
    }
  }

  // ── Nibbles ────────────────────────────────────────────────────────────────

  function Nibbles(key: Bytes): Bytes {
    if key == [] then [] else [key[0] / 16, key[0] % 16] + Nibbles(key[1..])
  }

  lemma {:induction false} NibbleOrder(a: Bytes, b: Bytes)
    ensures LexLt(Nibbles(a), Nibbles(b)) <==> LexLt(a, b)
    ensures Nibbles(a) <= Nibbles(b) <==> a <= b
  {
    if a != [] && b != [] {
      NibbleOrder(a[1..], b[1..]);
      var x, y := Nibbles(a), Nibbles(b);
      assert x[1..][1..] == Nibbles(a[1..]) && y[1..][1..] == Nibbles(b[1..]);
      assert a[0] == 16 * x[0] + x[1] && b[0] == 16 * y[0] + y[1];
      assert a <= b <==> a[0] == b[0] && a[1..] <= b[1..] by {
        assert a == [a[0]] + a[1..] && b == [b[0]] + b[1..];
      }
      assert x <= y <==> x[0] == y[0] && x[1] == y[1] && Nibbles(a[1..]) <= Nibbles(b[1..]) by {
        assert x == [x[0], x[1]] + Nibbles(a[1..]) && y == [y[0], y[1]] + Nibbles(b[1..]);
      }
    }
  }

  function Key(index: U64): Bytes {
    Nibbles(RlpEncodeIndex(index))
  }

  lemma KeyFacts(i: U64, j: U64)
    ensures LexLt(Key(i), Key(j)) <==> Rank(i) < Rank(j)
    ensures Key(i) <= Key(j) <==> i == j
    ensures Key(i) == Key(j) <==> i == j
  {
    hide Nibbles, RlpEncodeIndex, LexLt;
    NibbleOrder(RlpEncodeIndex(i), RlpEncodeIndex(j));
    KeyOrder(i, j);
    if RlpEncodeIndex(i) <= RlpEncodeIndex(j) {
      KeysPrefixFree(i, j);
    }
  }

  // ── Leaves ─────────────────────────────────────────────────────────────────

  datatype Leaf = Leaf(key: Bytes, value: Bytes)

  function LeafOf(receipts: seq<Receipt>, i: nat): Leaf
    requires i < |receipts| && |receipts| < TWO64
  {
    Leaf(RlpEncodeIndex(i), Encode2718(receipts[i]))
  }

  function Leaves(receipts: seq<Receipt>): seq<Leaf>
    requires |receipts| < TWO64
  {
    seq(|receipts|, i requires 0 <= i < |receipts| => LeafOf(receipts, i))
  }

  /** The trie of a receipt list as a key/value map, keyed by nibble path. */
  function TrieOf(leaves: seq<Leaf>): map<Bytes, Bytes> {
    if leaves == [] then map[]
    else
      var leaf := leaves[|leaves| - 1];
      TrieOf(leaves[..|leaves| - 1])[Nibbles(leaf.key) := leaf.value]
  }

  function ReceiptTrie(receipts: seq<Receipt>): map<Bytes, Bytes>
    requires |receipts| < TWO64
  {
    TrieOf(Leaves(receipts))
  }

  predicate Ascending(leaves: seq<Leaf>) {
    forall i, j | 0 <= i < j < |leaves| :: LexLt(leaves[i].key, leaves[j].key)
  }

  /** The k-th index in key order among `n` receipts. */
  function IndexInOrder(n: nat, k: nat): (i: nat)
    requires k < n
    ensures i < n
  {
    var zeroAt := if n - 1 < 127 then n - 1 else 127;
    if k < zeroAt then k + 1 else if k == zeroAt then 0 else k
  }

  function LeavesInOrder(receipts: seq<Receipt>): seq<Leaf>
    requires |receipts| < TWO64
  {
    seq(|receipts|, k requires 0 <= k < |receipts| => LeafOf(receipts, IndexInOrder(|receipts|, k)))
  }

  lemma InOrderAscends(receipts: seq<Receipt>)
    requires |receipts| < TWO64
    ensures Ascending(LeavesInOrder(receipts))
  {
    hide LexLt, RlpEncodeIndex;
    var n, out := |receipts|, LeavesInOrder(receipts);
    forall j, k | 0 <= j < k < n ensures LexLt(out[j].key, out[k].key) {
      KeyOrder(IndexInOrder(n, j), IndexInOrder(n, k));
    }
  }

  /** Sorting by key moves leaf 0 behind leaves 1 to 127 and nothing else. */
  lemma InOrderPermutes(receipts: seq<Receipt>)
    requires |receipts| < TWO64
    ensures multiset(LeavesInOrder(receipts)) == multiset(Leaves(receipts))
  {
    hide LeafOf;
    var n := |receipts|;
    if n > 0 {
      var zeroAt := if n - 1 < 127 then n - 1 else 127;
      var leaves, out := Leaves(receipts), LeavesInOrder(receipts);
      assert out == leaves[1..zeroAt + 1] + [leaves[0]] + leaves[zeroAt + 1..];
      MoveFirst(leaves, zeroAt);
    }
  }

  lemma MoveFirst(s: seq<Leaf>, to: nat)
    requires to < |s|
    ensures multiset(s[1..to + 1] + [s[0]] + s[to + 1..]) == multiset(s)
  {
    assert s == [s[0]] + s[1..to + 1] + s[to + 1..];
  }

  // ── Sorting ────────────────────────────────────────────────────────────────

  function Insert(leaf: Leaf, sorted: seq<Leaf>): seq<Leaf> {
    if sorted == [] || LexLt(leaf.key, sorted[0].key) then [leaf] + sorted
    else [sorted[0]] + Insert(leaf, sorted[1..])
  }

  /** The stable library sort by key. */
  function SortByKey(leaves: seq<Leaf>): seq<Leaf> {
    if leaves == [] then [] else Insert(leaves[|leaves| - 1], SortByKey(leaves[..|leaves| - 1]))
  }

  predicate NonDescending(leaves: seq<Leaf>) {
    forall i, j | 0 <= i < j < |leaves| :: !LexLt(leaves[j].key, leaves[i].key)
  }

  lemma PrependSorted(leaf: Leaf, sorted: seq<Leaf>)
    requires NonDescending(sorted)
    requires sorted != [] ==> !LexLt(sorted[0].key, leaf.key)
    ensures NonDescending([leaf] + sorted)
  {
    hide LexLt;
    forall j | 0 <= j < |sorted| ensures !LexLt(sorted[j].key, leaf.key) {
      if LexLt(sorted[j].key, leaf.key) {
        LexTotal(sorted[0].key, leaf.key);
        if LexLt(leaf.key, sorted[0].key) {
          LexTransitive(sorted[j].key, leaf.key, sorted[0].key);
        }
      }
    }
  }

  lemma {:induction false} InsertSorts(leaf: Leaf, sorted: seq<Leaf>)
    requires NonDescending(sorted)
    ensures NonDescending(Insert(leaf, sorted))
    ensures multiset(Insert(leaf, sorted)) == multiset(sorted) + multiset{leaf}
  {
    hide LexLt;
    if sorted == [] || LexLt(leaf.key, sorted[0].key) {
      if sorted != [] {
        LexTotal(leaf.key, sorted[0].key);
      }
      PrependSorted(leaf, sorted);
    } else {
      InsertSorts(leaf, sorted[1..]);
      var rest := Insert(leaf, sorted[1..]);
      assert sorted == [sorted[0]] + sorted[1..];
      assert rest[0] in multiset(rest);
      assert rest[0] == leaf || rest[0] in sorted[1..];
      PrependSorted(sorted[0], rest);
    }
  }

  lemma {:induction false} SortSorts(leaves: seq<Leaf>)
    ensures NonDescending(SortByKey(leaves))
    ensures multiset(SortByKey(leaves)) == multiset(leaves)
  {
    if leaves != [] {
      hide LexLt, Insert, NonDescending;
      var front, last := leaves[..|leaves| - 1], leaves[|leaves| - 1];
      SortSorts(front);
      InsertSorts(last, SortByKey(front));
      assert leaves == front + [last];
    }
  }

  lemma HeadsAgree(a: seq<Leaf>, b: seq<Leaf>)
    requires a != [] && b != []
    requires Ascending(a) && NonDescending(b) && multiset(a) == multiset(b)
    ensures a[0] == b[0]
  {
    hide LexLt;
    assert a[0] in multiset(b) && b[0] in multiset(a);
    var i :| 0 <= i < |b| && b[i] == a[0];
    var j :| 0 <= j < |a| && a[j] == b[0];
    LexTotal(a[0].key, b[0].key);
  }

  lemma DropHead(a: seq<Leaf>)
    requires a != []
    ensures multiset(a[1..]) == multiset(a) - multiset{a[0]}
    ensures a == [a[0]] + a[1..]
  {
    assert a == [a[0]] + a[1..];
  }

  /** A strictly ascending sequence is the only non-descending arrangement of its leaves. */
  lemma {:induction false} SortedUnique(a: seq<Leaf>, b: seq<Leaf>)
    requires Ascending(a) && NonDescending(b) && multiset(a) == multiset(b)
    ensures a == b
  {
    hide LexLt;
    assert |a| == |b| by { assert |multiset(b)| == |multiset(a)|; }
    if a != [] {
      HeadsAgree(a, b);
      DropHead(a);
      DropHead(b);
      SortedUnique(a[1..], b[1..]);
    }
  }

  /** The sorted leaves, for any number of receipts: indices 1 to 127, then 0,
      then 128 upward, with strictly ascending keys. */
  lemma SortedLeaves(receipts: seq<Receipt>)
    requires |receipts| < TWO64
    ensures SortByKey(Leaves(receipts)) == LeavesInOrder(receipts)
    ensures |LeavesInOrder(receipts)| == |receipts|
    ensures Ascending(SortByKey(Leaves(receipts)))
  {
    InOrderAscends(receipts);
    InOrderPermutes(receipts);
    SortSorts(Leaves(receipts));
    SortedUnique(LeavesInOrder(receipts), SortByKey(Leaves(receipts)));
  }

  // ── Verification ───────────────────────────────────────────────────────────

  /** The trie root as a function of the key/value map. */
  type RootHash = map<Bytes, Bytes> -> B256

  datatype RootMismatch = RootMismatch(blockNumber: U64, expected: B256, computed: B256)

  /** The streaming trie builder. It insists on strictly ascending leaves, and
      cannot place a leaf below another one. */
  class HashBuilder {
    var leaves: map<Bytes, Bytes>
    var last: Option<Bytes>

    constructor ()
      ensures leaves == map[] && last == None
    {
      leaves, last := map[], None;
    }

    method AddLeaf(path: Bytes, value: Bytes)
      requires last.Some? ==> LexLt(last.value, path) && !(last.value <= path)
      modifies this
      ensures leaves == old(leaves)[path := value] && last == Some(path)
    {
      leaves, last := leaves[path := value], Some(path);
    }
  }

  method VerifyEra1Receipts(root: RootHash, receipts: seq<Receipt>, expectedRoot: B256, blockNumber: U64)
    returns (r: Result<(), RootMismatch>)
    requires |receipts| < TWO64
    ensures r == if root(ReceiptTrie(receipts)) == expectedRoot then Ok(())
                 else Err(RootMismatch(blockNumber, expectedRoot, root(ReceiptTrie(receipts))))
  {
    hide LexLt, LeavesInOrder, Nibbles, SortByKey, TrieOf, Ascending;
    if receipts == [] {
      var emptyRoot := root(map[]);
      EmptyTrie();
      return if expectedRoot == emptyRoot then Ok(())
             else Err(RootMismatch(blockNumber, expectedRoot, emptyRoot));
    }

    var items := SortByKey(Leaves(receipts));
    SortedLeaves(receipts);
    EmptyTrie();
    assert items[..0] == [];
    var builder := new HashBuilder();
    var i := 0;
    while i < |items|
      invariant fresh(builder)
      invariant 0 <= i <= |items|
      invariant builder.leaves == TrieOf(items[..i])
      invariant if i == 0 then builder.last == None else builder.last == Some(Nibbles(items[i - 1].key))
    {
      if i > 0 {
        PathsAscend(receipts, i);
      }
      builder.AddLeaf(Nibbles(items[i].key), items[i].value);
      TrieGrows(items, i);
      i := i + 1;
    }
    assert items[..|items|] == items;
    OrderIrrelevant(receipts);

    var computed := root(builder.leaves);
    return if computed == expectedRoot then Ok(())
           else Err(RootMismatch(blockNumber, expectedRoot, computed));
  }

  lemma EmptyTrie()
    ensures Leaves([]) == [] && TrieOf([]) == map[]
  {
  }

  lemma TrieGrows(leaves: seq<Leaf>, i: nat)
    requires i < |leaves|
    ensures TrieOf(leaves[..i + 1]) == TrieOf(leaves[..i])[Nibbles(leaves[i].key) := leaves[i].value]
  {
    assert leaves[..i + 1][..i] == leaves[..i];
  }

  /** Every leaf the builder is given is acceptable after the one before it. */
  lemma PathsAscend(receipts: seq<Receipt>, i: nat)
    requires 0 < i < |receipts| < TWO64
    ensures var leaves := LeavesInOrder(receipts);
            var before, path := Nibbles(leaves[i - 1].key), Nibbles(leaves[i].key);
            LexLt(before, path) && !(before <= path)
  {
    hide LexLt, Nibbles, RlpEncodeIndex;
    KeyFacts(IndexInOrder(|receipts|, i - 1), IndexInOrder(|receipts|, i));
  }

  /** Leaves with pairwise different keys are exactly the entries of their trie. */
  ghost predicate DistinctKeys(leaves: seq<Leaf>) {
    forall i, j | 0 <= i < j < |leaves| :: Nibbles(leaves[i].key) != Nibbles(leaves[j].key)
  }

  lemma {:induction false} TrieHolds(leaves: seq<Leaf>)
    requires DistinctKeys(leaves)
    ensures forall i | 0 <= i < |leaves| ::
              Nibbles(leaves[i].key) in TrieOf(leaves) && TrieOf(leaves)[Nibbles(leaves[i].key)] == leaves[i].value
  {
    hide Nibbles;
    if leaves != [] {
      TrieHolds(leaves[..|leaves| - 1]);
    }
  }

  lemma {:induction false} TrieComesFrom(leaves: seq<Leaf>, path: Bytes)
    requires path in TrieOf(leaves)
    ensures exists i :: 0 <= i < |leaves| && Nibbles(leaves[i].key) == path
  {
    hide Nibbles;
    var n := |leaves| - 1;
    if path == Nibbles(leaves[n].key) {
      assert 0 <= n < |leaves|;
    } else {
      TrieComesFrom(leaves[..n], path);
      var i :| 0 <= i < n && Nibbles(leaves[..n][i].key) == path;
      assert Nibbles(leaves[i].key) == path;
    }
  }

  lemma LeafPath(receipts: seq<Receipt>, i: nat)
    requires i < |receipts| && |receipts| < TWO64
    ensures Nibbles(LeafOf(receipts, i).key) == Key(i)
  {
    hide Nibbles, RlpEncodeIndex, Encode2718;
  }

  lemma PathsDiffer(receipts: seq<Receipt>, i: nat, j: nat)
    requires i < |receipts| && j < |receipts| && |receipts| < TWO64 && i != j
    ensures Nibbles(LeafOf(receipts, i).key) != Nibbles(LeafOf(receipts, j).key)
  {
    hide Nibbles, LeafOf, Key, LexLt;
    LeafPath(receipts, i);
    LeafPath(receipts, j);
    KeyFacts(i, j);
  }

  lemma LeavesDistinct(receipts: seq<Receipt>)
    requires |receipts| < TWO64
    ensures DistinctKeys(Leaves(receipts))
    ensures DistinctKeys(LeavesInOrder(receipts))
  {
    hide Nibbles, LeafOf;
    var n, a, b := |receipts|, Leaves(receipts), LeavesInOrder(receipts);
    forall i, j | 0 <= i < j < n ensures Nibbles(a[i].key) != Nibbles(a[j].key) {
      PathsDiffer(receipts, i, j);
    }
    forall i, j | 0 <= i < j < n ensures Nibbles(b[i].key) != Nibbles(b[j].key) {
      PathsDiffer(receipts, IndexInOrder(n, i), IndexInOrder(n, j));
    }
  }

  lemma TrieIncluded(a: seq<Leaf>, b: seq<Leaf>)
    requires DistinctKeys(a) && DistinctKeys(b) && multiset(a) == multiset(b)
    ensures forall path | path in TrieOf(a) :: path in TrieOf(b) && TrieOf(b)[path] == TrieOf(a)[path]
  {
    hide Nibbles, TrieOf;
    TrieHolds(a);
    TrieHolds(b);
    forall path | path in TrieOf(a) ensures path in TrieOf(b) && TrieOf(b)[path] == TrieOf(a)[path] {
      TrieComesFrom(a, path);
      var i :| 0 <= i < |a| && Nibbles(a[i].key) == path;
      assert a[i] in multiset(b);
      var j :| 0 <= j < |b| && b[j] == a[i];
    }
  }

  lemma OrderIrrelevant(receipts: seq<Receipt>)
    requires |receipts| < TWO64
    ensures TrieOf(LeavesInOrder(receipts)) == ReceiptTrie(receipts)
  {
    hide TrieOf, Leaves, LeavesInOrder, DistinctKeys;
    LeavesDistinct(receipts);
    InOrderPermutes(receipts);
    TrieIncluded(Leaves(receipts), LeavesInOrder(receipts));
    TrieIncluded(LeavesInOrder(receipts), Leaves(receipts));
  }

  /** The trie of a receipt list maps the key of each index to that receipt's encoding. */
  lemma TrieLookup(receipts: seq<Receipt>, i: U64)
    requires |receipts| < TWO64
    ensures Key(i) in ReceiptTrie(receipts) <==> i < |receipts|
    ensures i < |receipts| ==> ReceiptTrie(receipts)[Key(i)] == Encode2718(receipts[i])
  {
    hide Nibbles, RlpEncodeIndex, Encode2718;
    var leaves := Leaves(receipts);
    LeavesDistinct(receipts);
    TrieHolds(leaves);
    if i < |receipts| {
      assert Nibbles(leaves[i].key) == Key(i);
    } else if Key(i) in ReceiptTrie(receipts) {
      TrieComesFrom(leaves, Key(i));
      var j :| 0 <= j < |leaves| && Nibbles(leaves[j].key) == Key(i);
      KeyFacts(i, j);
    }
  }

  ghost predicate AllFit(receipts: seq<Receipt>) {
    |receipts| < TWO64 && forall i | 0 <= i < |receipts| :: Fits(receipts[i])
  }

  lemma TrieLengths(a: seq<Receipt>, b: seq<Receipt>)
    requires AllFit(a) && AllFit(b) && ReceiptTrie(a) == ReceiptTrie(b)
    ensures |a| <= |b|
  {
    hide Key, ReceiptTrie;
    if |b| < |a| {
      TrieLookup(a, |b|);
      TrieLookup(b, |b|);
    }
  }

  /** Equal tries come from equal receipt lists: same length, same order. */
  lemma TrieDeterminesReceipts(a: seq<Receipt>, b: seq<Receipt>)
    requires AllFit(a) && AllFit(b) && ReceiptTrie(a) == ReceiptTrie(b)
    ensures a == b
  {
    hide Key, ReceiptTrie, Encode2718;
    TrieLengths(a, b);
    TrieLengths(b, a);
    forall i | 0 <= i < |a| ensures a[i] == b[i] {
      TrieLookup(a, i);
      TrieLookup(b, i);
      Codec.Encode2718Injective(a[i], b[i]);
    }
  }

  /** No other map has this map's root. */
  ghost predicate Binding(root: RootHash, trie: map<Bytes, Bytes>) {
    forall m :: root(m) == root(trie) ==> m == trie
  }

  /** Receipts accepted under the root of a binding trie are the receipts the
      trie was built from. */
  lemma AcceptedReceiptsAreGenuine(root: RootHash, genuine: seq<Receipt>, received: seq<Receipt>)
    requires AllFit(genuine) && AllFit(received)
    requires Binding(root, ReceiptTrie(genuine))
    ensures root(ReceiptTrie(received)) == root(ReceiptTrie(genuine)) <==> received == genuine
  {
    hide ReceiptTrie;
    if root(ReceiptTrie(received)) == root(ReceiptTrie(genuine)) {
      TrieDeterminesReceipts(received, genuine);
    }
  }
}
