/** The storage allocator of the C shell: malloc, morecore, free and realloc of alloc.c. */
module CshAlloc {

  const NBUCKETS := 30
  const MAGIC := 0xef
  const HEADER := 4      // bytes in front of every block
  const WORD := 0x1_0000_0000

  /** The word in front of a block: a pointer to the next free block, or two bytes for a block in use. */
  datatype Overhead = Link(next: nat) | InUse(magic: nat, index: nat) {
    /** The lowest byte, whatever the word means. */
    function OvMagic(): nat {
      match this
      case Link(p) => p % 256
      case InUse(m, _) => m
    }
  }

  function Power(n: nat): (p: nat)
    ensures p > 0
  {
    if n == 0 then 1 else 2 * Power(n - 1)
  }

  /** On a word boundary. */
  predicate Even4(x: nat) { x % 4 == 0 }

  lemma Even4Sum(x: nat, y: nat)
    requires Even4(x) && Even4(y)
    ensures Even4(x + y)
  {
  }

  lemma Even4Size(b: nat)
    ensures Even4(Sz(b)) && Even4(Sz(b) - HEADER)
  {
    assert Sz(b) == 4 * (2 * Power(b));
  }

  /** 1 << (bucket + 3) */
  function Sz(bucket: nat): (s: nat)
    ensures s >= 8 && s % 8 == 0
  {
    8 * Power(bucket)
  }

  lemma {:induction false} SzGrows(b: nat, c: nat)
    requires b <= c
    ensures Sz(b) <= Sz(c) && (b < c ==> 2 * Sz(b) <= Sz(c))
  {
    if b < c {
      SzGrows(b, c - 1);
    }
  }

  lemma Sz28()
    ensures Sz(27) == 0x4000_0000 && Sz(28) == 0x8000_0000 && Sz(29) == WORD
  {
    assert Power(8) == 256;
    assert Power(16) == 65536;
    assert Power(24) == 0x100_0000;
  }

  /** The bytes of one block of a bucket, with its header: blocks of a page and more get a page more. */
  function Len(pagesz: nat, bucket: nat): nat {
    if Sz(bucket) < pagesz then Sz(bucket) else Sz(bucket) + pagesz
  }

  function Cap(pagesz: nat, bucket: nat): int {
    Len(pagesz, bucket) - HEADER
  }

  lemma CapGrows(pagesz: nat, b: nat, c: nat)
    requires b <= c
    ensures Cap(pagesz, b) <= Cap(pagesz, c)
  {
    SzGrows(b, c);
  }

  /** The first bucket whose blocks hold the bytes. */
  ghost predicate Fits(pagesz: nat, nbytes: nat, bucket: nat) {
    nbytes <= Cap(pagesz, bucket) && (bucket > 0 ==> nbytes > Cap(pagesz, bucket - 1))
  }

  lemma FitsOnce(pagesz: nat, nbytes: nat, b: nat, c: nat)
    requires Fits(pagesz, nbytes, b) && Fits(pagesz, nbytes, c)
    ensures b == c
  {
    if b < c {
      CapGrows(pagesz, b, c - 1);
    } else if c < b {
      CapGrows(pagesz, c, b - 1);
    }
  }

  /** What the sizes of the first and last buckets are, next to those of b and of a page. */
  lemma Sizes(pagebucket: nat, b: nat)
    requires pagebucket < 28 && b <= 28
    ensures Sz(0) == 8 && Sz(28) == 0x8000_0000 && Sz(b + 1) == 2 * Sz(b)
    ensures 8 <= Sz(pagebucket) <= 0x4000_0000 && Sz(b) <= 0x8000_0000
    ensures b < pagebucket <==> Sz(b) < Sz(pagebucket)
    ensures b == 28 <==> Sz(b) == 0x8000_0000
    ensures b < 28 ==> Sz(b) <= 0x4000_0000
    ensures pagebucket > 0 ==> Sz(pagebucket - 1) < Sz(pagebucket)
  {
    Sz28();
    SzGrows(pagebucket, 27);
    if b < 28 {
      SzGrows(b, 27);
    }
    if b < pagebucket {
      SzGrows(b, pagebucket);
    } else {
      SzGrows(pagebucket, b);
    }
    if pagebucket > 0 {
      SzGrows(pagebucket - 1, pagebucket);
    }
  }

  lemma CapOf(pagebucket: nat, b: nat)
    requires pagebucket < 28 && b <= 28
    ensures Cap(Sz(pagebucket), b) == Sz(b) - HEADER + if b < pagebucket then 0 else Sz(pagebucket)
  {
    Sizes(pagebucket, b);
  }

  /** The loop of malloc that chooses a bucket; amounts are unsigned words. */
  method Choose(pagesz: nat, pagebucket: nat, nbytes: nat) returns (ok: bool, bucket: nat)
    requires pagesz == Sz(pagebucket) && pagebucket < 28 && nbytes < WORD
    ensures ok <==> nbytes <= Cap(pagesz, 28)
    ensures ok ==> bucket <= 28 && Fits(pagesz, nbytes, bucket)
  {
    hide Sz, Cap;
    Sizes(pagebucket, 0);
    Sizes(pagebucket, 28);
    var amt;
    var n := pagesz - HEADER;
    ghost var small := nbytes <= n;
    if nbytes <= n {
      amt, bucket := 8, 0;
      n := WORD - HEADER;
    } else {
      amt, bucket := pagesz, pagebucket;
      if bucket > 0 {
        CapOf(pagebucket, bucket - 1);
      }
    }
    while nbytes > (amt + n) % WORD
      invariant bucket <= 28 && amt == Sz(bucket) && (small ==> bucket <= pagebucket) && (!small ==> bucket >= pagebucket)
      invariant n == if small then WORD - HEADER else pagesz - HEADER
      invariant bucket > 0 ==> nbytes > Cap(pagesz, bucket - 1)
      decreases 28 - bucket
    {
      Sizes(pagebucket, bucket);
      CapOf(pagebucket, bucket);
      amt := amt * 2 % WORD;
      if amt == 0 {
        return false, bucket;
      }
      bucket := bucket + 1;
    }
    Sizes(pagebucket, bucket);
    CapOf(pagebucket, bucket);
    CapGrows(pagesz, bucket, 28);
    ok := true;
  }

  // ---- the heap ----

  /** The variables of the allocator; blocks, used and lists say what they mean. */
  datatype Heap = Heap(blocks: map<nat, nat>,      // every block, with its bucket
                       used: set<nat>,             // the blocks in use
                       lists: seq<seq<nat>>,       // the free blocks of each bucket
                       mem: map<nat, Overhead>,    // the words in front of blocks; what was never written is zero
                       nextf: seq<nat>, nmalloc: seq<int>, brk: nat)

  /** The blocks lie apart from each other in the memory obtained. */
  ghost predicate Layout(h: Heap, pagesz: nat) {
    && (forall a :: a in h.blocks ==> a > 0 && a % 4 == 0 && h.blocks[a] <= 28 && a + Len(pagesz, h.blocks[a]) <= h.brk)
    && (forall a, c :: a in h.blocks && c in h.blocks && a < c ==> a + Len(pagesz, h.blocks[a]) <= c)
    && (forall a :: a in h.mem ==> a in h.blocks)
  }

  function Word(mem: map<nat, Overhead>, a: nat): Overhead {
    if a in mem then mem[a] else Link(0)
  }

  function At(l: seq<nat>, j: nat): nat { if j < |l| then l[j] else 0 }

  /** A list is chained through the words of its blocks. */
  ghost predicate Chained(l: seq<nat>, mem: map<nat, Overhead>) {
    forall j :: 0 <= j < |l| ==> Word(mem, l[j]) == Link(At(l, j + 1))
  }

  ghost predicate Distinct(l: seq<nat>) {
    forall j, k :: 0 <= j < k < |l| ==> l[j] != l[k]
  }

  /** Bucket b has its free blocks on its list, each once. */
  ghost predicate Bucket(h: Heap, b: nat)
    requires b < |h.lists| && b < |h.nextf| && b < |h.nmalloc|
  {
    && (forall a :: a in h.lists[b] <==> a in h.blocks && h.blocks[a] == b && a !in h.used)
    && Distinct(h.lists[b]) && Chained(h.lists[b], h.mem)
    && h.nextf[b] == At(h.lists[b], 0)
    && h.nmalloc[b] == |UsedIn(h, b)|
  }

  ghost function UsedIn(h: Heap, b: nat): set<nat> {
    set a | a in h.used && a in h.blocks && h.blocks[a] == b
  }

  ghost predicate Marked(h: Heap) {
    forall a :: a in h.used ==> a in h.blocks && Word(h.mem, a) == InUse(MAGIC, h.blocks[a])
  }

  ghost predicate Sound(h: Heap, pagesz: nat) {
    && Layout(h, pagesz) && Marked(h)
    && |h.lists| == |h.nextf| == |h.nmalloc| == NBUCKETS
    && forall b :: 0 <= b < NBUCKETS ==> Bucket(h, b)
  }

  // ---- taking a block ----

  ghost function Popped(h: Heap, b: nat): Heap
    requires b < |h.lists| && h.lists[b] != [] && b < |h.nextf| && b < |h.nmalloc|
  {
    var op := h.nextf[b];
    h.(used := h.used + {op}, lists := h.lists[b := h.lists[b][1..]], mem := h.mem[op := InUse(MAGIC, b)],
       nextf := h.nextf[b := match Word(h.mem, op) case Link(p) => p case _ => 0],
       nmalloc := h.nmalloc[b := h.nmalloc[b] + 1])
  }

  lemma PopFirst(h: Heap, b: nat, pagesz: nat)
    requires Sound(h, pagesz) && b < NBUCKETS
    ensures h.nextf[b] != 0 <==> h.lists[b] != []
    ensures h.lists[b] != [] ==> h.nextf[b] == h.lists[b][0] && h.nextf[b] in h.blocks && h.blocks[h.nextf[b]] == b && h.nextf[b] !in h.used
  {
    assert Bucket(h, b);
    if h.lists[b] != [] {
      assert h.lists[b][0] in h.lists[b];
    }
  }

  lemma UsedMore(h: Heap, h': Heap, op: nat, c: nat)
    requires op in h.blocks && op !in h.used && h'.used == h.used + {op} && h'.blocks == h.blocks
    ensures |UsedIn(h', c)| == |UsedIn(h, c)| + if c == h.blocks[op] then 1 else 0
  {
    if c == h.blocks[op] {
      assert UsedIn(h', c) == UsedIn(h, c) + {op};
    } else {
      assert UsedIn(h', c) == UsedIn(h, c);
    }
  }

  lemma TailMembers(l: seq<nat>)
    requires l != [] && Distinct(l)
    ensures forall a :: a in l[1..] <==> a in l && a != l[0]
    ensures Distinct(l[1..])
  {
    forall a | a in l && a != l[0] ensures a in l[1..] {
      var j :| 0 <= j < |l| && l[j] == a;
      assert l[1..][j - 1] == a;
    }
  }

  /** A word that is not on the list may change. */
  lemma ChainElsewhere(l: seq<nat>, mem: map<nat, Overhead>, op: nat, w: Overhead)
    requires Chained(l, mem) && op !in l
    ensures Chained(l, mem[op := w])
  {
  }

  lemma PopBucket(h: Heap, b: nat, c: nat, pagesz: nat)
    requires Sound(h, pagesz) && b < NBUCKETS && c < NBUCKETS && h.lists[b] != []
    ensures Bucket(Popped(h, b), c)
  {
    hide Layout, Marked, UsedIn;
    PopFirst(h, b, pagesz);
    var op, l := h.nextf[b], h.lists[b];
    UsedMore(h, Popped(h, b), op, c);
    assert Bucket(h, c);
    if c == b {
      TailMembers(l);
      assert l[0] == op && Word(h.mem, op) == Link(At(l, 1));
      ChainElsewhere(l[1..], h.mem, op, InUse(MAGIC, b));
    } else {
      ChainElsewhere(h.lists[c], h.mem, op, InUse(MAGIC, b));
    }
  }

  lemma PopSound(h: Heap, b: nat, pagesz: nat)
    requires Sound(h, pagesz) && b < NBUCKETS && h.lists[b] != []
    ensures Sound(Popped(h, b), pagesz)
    ensures Word(h.mem, h.nextf[b]) == Link(At(h.lists[b], 1))
  {
    PopFirst(h, b, pagesz);
    assert Bucket(h, b);
    forall c | 0 <= c < NBUCKETS ensures Bucket(Popped(h, b), c) {
      PopBucket(h, b, c, pagesz);
    }
  }

  // ---- giving a block back ----

  ghost function Pushed(h: Heap, op: nat): Heap
    requires op in h.blocks && h.blocks[op] < |h.lists| && h.blocks[op] < |h.nextf| && h.blocks[op] < |h.nmalloc|
  {
    var b := h.blocks[op];
    h.(used := h.used - {op}, lists := h.lists[b := [op] + h.lists[b]], mem := h.mem[op := Link(h.nextf[b])],
       nextf := h.nextf[b := op], nmalloc := h.nmalloc[b := h.nmalloc[b] - 1])
  }

  lemma PushBucket(h: Heap, op: nat, c: nat, pagesz: nat)
    requires Sound(h, pagesz) && c < NBUCKETS && op in h.used && op in h.blocks && h.blocks[op] < NBUCKETS
    ensures Bucket(Pushed(h, op), c)
  {
    hide Layout, Marked, UsedIn;
    var b := h.blocks[op];
    assert Bucket(h, c);
    assert h.used == Pushed(h, op).used + {op};
    UsedMore(Pushed(h, op), h, op, c);
    ChainElsewhere(h.lists[c], h.mem, op, Link(h.nextf[b]));
  }

  lemma PushSound(h: Heap, op: nat, pagesz: nat)
    requires Sound(h, pagesz) && op in h.used && op in h.blocks && h.blocks[op] < NBUCKETS
    ensures Sound(Pushed(h, op), pagesz)
  {
    forall c | 0 <= c < NBUCKETS ensures Bucket(Pushed(h, op), c) {
      PushBucket(h, op, c, pagesz);
    }
  }

  // ---- new memory ----

  /** n blocks of sz bytes from op on. */
  ghost function Row(op: nat, sz: nat, n: nat): seq<nat> {
    seq(n, j requires 0 <= j < n => op + j * sz)
  }

  lemma TimesLess(j: nat, k: nat, sz: nat)
    requires j < k
    ensures j * sz + sz <= k * sz
  {
    var d := k - j;
    assert k * sz == j * sz + d * sz;
    TimesOne(d, sz);
  }

  lemma TimesOne(d: nat, sz: nat)
    requires d >= 1
    ensures d * sz >= sz
  {
  }

  lemma TimesFour(j: nat, sz: nat)
    requires sz % 4 == 0
    ensures (j * sz) % 4 == 0
  {
    var q := sz / 4;
    assert j * sz == 4 * (j * q);
  }

  lemma RowEntry(op: nat, sz: nat, n: nat, j: nat)
    requires op % 4 == 0 && sz % 4 == 0 && j < n
    ensures |Row(op, sz, n)| == n && Row(op, sz, n)[j] == op + j * sz
    ensures op <= op + j * sz && (op + j * sz) % 4 == 0 && op + j * sz + sz <= op + n * sz
  {
    TimesFour(j, sz);
    TimesLess(j, n, sz);
    Row4(op, j * sz);
  }

  lemma Row4(x: nat, y: nat)
    requires x % 4 == 0 && y % 4 == 0
    ensures (x + y) % 4 == 0
  {
  }

  lemma RowLater(op: nat, sz: nat, n: nat, j: nat, k: nat)
    requires j < k < n
    ensures |Row(op, sz, n)| == n && Row(op, sz, n)[j] + sz <= Row(op, sz, n)[k]
  {
    TimesLess(j, k, sz);
  }

  lemma RowFacts(op: nat, sz: nat, n: nat)
    requires op % 4 == 0 && sz % 4 == 0 && sz > 0
    ensures var l := Row(op, sz, n);
            |l| == n &&
            (forall j :: 0 <= j < n ==> l[j] >= op && l[j] % 4 == 0 && l[j] + sz <= op + n * sz) &&
            (forall j, k :: 0 <= j < k < n ==> l[j] + sz <= l[k])
  {
    hide Row;
    var l := Row(op, sz, n);
    RowLength(op, sz, n);
    forall j | 0 <= j < n ensures l[j] >= op && l[j] % 4 == 0 && l[j] + sz <= op + n * sz {
      RowEntry(op, sz, n, j);
    }
    forall j, k | 0 <= j < k < n ensures l[j] + sz <= l[k] {
      RowLater(op, sz, n, j, k);
    }
  }

  lemma RowLength(op: nat, sz: nat, n: nat)
    ensures |Row(op, sz, n)| == n
  {
  }

  /** The words that morecore writes: every new block but the last points to the next one. */
  ghost predicate Linked(mem: map<nat, Overhead>, mem': map<nat, Overhead>, l: seq<nat>, n: nat) {
    && n <= |l|
    && (forall j :: 0 <= j < n && j + 1 < |l| ==> l[j] in mem' && mem'[l[j]] == Link(l[j + 1]))
    && (forall a :: a in mem' ==> (exists j :: 0 <= j < n && j + 1 < |l| && l[j] == a) || (a in mem && mem'[a] == mem[a]))
    && (forall a :: a in mem && a !in l ==> a in mem' && mem'[a] == mem[a])
  }

  ghost function Grown(h: Heap, b: nat, l: seq<nat>, mem': map<nat, Overhead>, amt: nat): Heap
    requires b < |h.lists| && b < |h.nextf|
  {
    h.(blocks := map a | a in h.blocks.Keys + (set x | x in l) :: if a in h.blocks then h.blocks[a] else b,
       lists := h.lists[b := l], mem := mem', nextf := h.nextf[b := At(l, 0)], brk := h.brk + amt)
  }

  /** The new blocks lie behind all others, in memory nobody has written. */
  ghost predicate Apart(h: Heap, l: seq<nat>, len: nat, amt: nat) {
    && (forall j :: 0 <= j < |l| ==> l[j] >= h.brk > 0 && l[j] % 4 == 0 && l[j] + len <= h.brk + amt)
    && (forall j, k :: 0 <= j < k < |l| ==> l[j] + len <= l[k])
    && (forall a :: a in h.blocks ==> a < h.brk) && (forall a :: a in h.mem ==> a < h.brk)
  }

  lemma GrowMembers(h: Heap, b: nat, l: seq<nat>, mem': map<nat, Overhead>, amt: nat, a: nat)
    requires b < |h.lists| && b < |h.nextf| && (a in l ==> a !in h.blocks)
    ensures var h' := Grown(h, b, l, mem', amt);
            (a in h'.blocks <==> a in h.blocks || a in l) && (a in h.blocks ==> h'.blocks[a] == h.blocks[a]) && (a in l ==> h'.blocks[a] == b)
  {
  }

  lemma GrowLayout(h: Heap, b: nat, l: seq<nat>, mem': map<nat, Overhead>, amt: nat, pagesz: nat)
    requires Layout(h, pagesz) && b <= 28 && b < |h.lists| && b < |h.nextf| && Apart(h, l, Len(pagesz, b), amt) && Linked(h.mem, mem', l, |l|)
    ensures Layout(Grown(h, b, l, mem', amt), pagesz)
  {
    hide Grown, Len;
    var h' := Grown(h, b, l, mem', amt);
    GrownFields(h, b, l, mem', amt);
    forall a: nat ensures (a in h'.blocks <==> a in h.blocks || a in l) && (a in l ==> h'.blocks[a] == b && a >= h.brk) && (a in h.blocks ==> h'.blocks[a] == h.blocks[a]) {
      GrowMembers(h, b, l, mem', amt, a);
    }
    forall a, c | a in h'.blocks && c in h'.blocks && a < c ensures a + Len(pagesz, h'.blocks[a]) <= c {
      if a in l && c in l {
        LaterInRow(h, l, Len(pagesz, b), amt, a, c);
      }
    }
  }

  /** Blocks are never taken apart or put together. */
  ghost predicate Extends(blocks: map<nat, nat>, blocks': map<nat, nat>) {
    forall a :: a in blocks ==> a in blocks' && blocks'[a] == blocks[a]
  }

  lemma ExtendsSame(blocks: map<nat, nat>)
    ensures Extends(blocks, blocks)
  {
  }

  lemma GrownFields(h: Heap, b: nat, l: seq<nat>, mem': map<nat, Overhead>, amt: nat)
    requires b < |h.lists| && b < |h.nextf|
    ensures var g := Grown(h, b, l, mem', amt);
            g.mem == mem' && g.brk == h.brk + amt && g.used == h.used && g.nmalloc == h.nmalloc &&
            g.nextf == h.nextf[b := At(l, 0)] && g.lists == h.lists[b := l] && Extends(h.blocks, g.blocks)
  {
  }

  lemma LaterInRow(h: Heap, l: seq<nat>, len: nat, amt: nat, a: nat, c: nat)
    requires Apart(h, l, len, amt) && a in l && c in l && a < c
    ensures a + len <= c
  {
    var j :| 0 <= j < |l| && l[j] == a;
    var k :| 0 <= k < |l| && l[k] == c;
  }

  /** What is known of a word in the old and in the new memory. */
  lemma GrowWords(h: Heap, l: seq<nat>, mem': map<nat, Overhead>, amt: nat, len: nat)
    requires Apart(h, l, len, amt) && len > 0 && Linked(h.mem, mem', l, |l|)
    ensures forall a: nat :: a < h.brk ==> Word(mem', a) == Word(h.mem, a)
    ensures Distinct(l) && Chained(l, mem')
    ensures forall a :: a in l ==> a >= h.brk
  {
    forall a: nat | a < h.brk ensures Word(mem', a) == Word(h.mem, a) {
      assert a !in l;
    }
    forall j | 0 <= j < |l| ensures Word(mem', l[j]) == Link(At(l, j + 1)) {
    }
  }

  lemma GrowBucket(h: Heap, b: nat, l: seq<nat>, mem': map<nat, Overhead>, amt: nat, len: nat, c: nat)
    requires b < |h.lists| && b < |h.nextf| && c < |h.lists| && c < |h.nextf| && c < |h.nmalloc| && h.lists[b] == []
    requires Bucket(h, c) && Apart(h, l, len, amt) && len > 0 && Linked(h.mem, mem', l, |l|)
    requires forall a :: a in h.used ==> a in h.blocks
    ensures Bucket(Grown(h, b, l, mem', amt), c)
  {
    hide Linked, Word, Grown;
    var h' := Grown(h, b, l, mem', amt);
    GrownFields(h, b, l, mem', amt);
    GrowWords(h, l, mem', amt, len);
    forall a ensures a in h'.lists[c] <==> a in h'.blocks && h'.blocks[a] == c && a !in h'.used {
      GrowMembers(h, b, l, mem', amt, a);
    }
    assert UsedIn(h', c) == UsedIn(h, c);
    if c != b {
      forall j | 0 <= j < |h.lists[c]| ensures h.lists[c][j] < h.brk {
        assert h.lists[c][j] in h.lists[c];
      }
    }
  }

  lemma GrowSound(h: Heap, b: nat, l: seq<nat>, mem': map<nat, Overhead>, amt: nat, pagesz: nat)
    requires Sound(h, pagesz) && b <= 28 && h.lists[b] == [] && Apart(h, l, Len(pagesz, b), amt) && Linked(h.mem, mem', l, |l|)
    ensures Sound(Grown(h, b, l, mem', amt), pagesz)
  {
    var h' := Grown(h, b, l, mem', amt);
    GrowLayout(h, b, l, mem', amt, pagesz);
    forall c | 0 <= c < NBUCKETS ensures Bucket(h', c) {
      assert Bucket(h, c);
      GrowBucket(h, b, l, mem', amt, Len(pagesz, b), c);
    }
    GrowWords(h, l, mem', amt, Len(pagesz, b));
  }

  lemma LinkedNone(mem: map<nat, Overhead>, l: seq<nat>)
    ensures Linked(mem, mem, l, 0)
  {
  }

  lemma LinkedStep(mem: map<nat, Overhead>, mem': map<nat, Overhead>, l: seq<nat>, n: nat)
    requires Linked(mem, mem', l, n) && n + 1 < |l| && Distinct(l)
    ensures Linked(mem, mem'[l[n] := Link(l[n + 1])], l, n + 1)
  {
  }

  lemma LinkedLast(mem: map<nat, Overhead>, mem': map<nat, Overhead>, l: seq<nat>)
    requires l != [] && Linked(mem, mem', l, |l| - 1)
    ensures Linked(mem, mem', l, |l|)
  {
  }

  // ---- all memory is in blocks ----

  /** Address x lies in block a. */
  predicate Within(blocks: map<nat, nat>, pagesz: nat, a: nat, x: nat) {
    a in blocks && a <= x < a + Len(pagesz, blocks[a])
  }

  ghost predicate InBlock(blocks: map<nat, nat>, pagesz: nat, x: nat) {
    exists a: nat :: Within(blocks, pagesz, a, x)
  }

  /** The memory from base on has been cut into blocks without waste. */
  ghost predicate Tiled(blocks: map<nat, nat>, pagesz: nat, base: nat, brk: nat) {
    && base <= brk && (forall a :: a in blocks ==> base <= a)
    && forall x: nat :: base <= x < brk ==> InBlock(blocks, pagesz, x)
  }

  /** Every byte obtained lies in exactly one block. */
  lemma OneBlock(h: Heap, pagesz: nat, base: nat, x: nat)
    requires Sound(h, pagesz) && Tiled(h.blocks, pagesz, base, h.brk) && base <= x < h.brk
    ensures exists a: nat :: Within(h.blocks, pagesz, a, x) && forall c: nat :: Within(h.blocks, pagesz, c, x) ==> c == a
  {
    hide Len;
    assert InBlock(h.blocks, pagesz, x);
    var a: nat :| Within(h.blocks, pagesz, a, x);
    forall c: nat | Within(h.blocks, pagesz, c, x) ensures c == a {
      if c != a {
        BlocksApart(h, pagesz, a, c);
      }
    }
  }

  lemma TiledNone(pagesz: nat, brk: nat)
    ensures Tiled(map[], pagesz, brk, brk)
  {
  }

  /** The blocks of l follow each other from brk on. */
  ghost predicate Consecutive(l: seq<nat>, brk: nat, len: nat) {
    forall j :: 0 <= j < |l| ==> l[j] == brk + j * len
  }

  lemma InRow(l: seq<nat>, brk: nat, len: nat, x: nat)
    requires Consecutive(l, brk, len) && len > 0 && brk <= x < brk + |l| * len
    ensures exists a :: a in l && a <= x < a + len
  {
    var j := (x - brk) / len;
    DivLess(x - brk, |l|, len);
    assert l[j] in l && l[j] == brk + j * len && x - brk == j * len + (x - brk) % len;
  }

  lemma DivAtLeast(x: nat, n: nat, d: nat)
    requires d > 0 && x / d >= n
    ensures x >= n * d
  {
    assert x == x / d * d + x % d;
    if n < x / d {
      TimesLess(n, x / d, d);
    }
  }

  lemma DivLess(x: nat, n: nat, d: nat)
    requires d > 0 && x < n * d
    ensures x / d < n
  {
    if x / d >= n {
      DivAtLeast(x, n, d);
    }
  }

  lemma GrowTiled(h: Heap, b: nat, l: seq<nat>, mem': map<nat, Overhead>, amt: nat, pagesz: nat, base: nat)
    requires Tiled(h.blocks, pagesz, base, h.brk) && b < |h.lists| && b < |h.nextf|
    requires Apart(h, l, Len(pagesz, b), amt) && Consecutive(l, h.brk, Len(pagesz, b)) && amt == |l| * Len(pagesz, b)
    requires Len(pagesz, b) > 0
    ensures Tiled(Grown(h, b, l, mem', amt).blocks, pagesz, base, h.brk + amt)
  {
    hide Grown, Len;
    var blocks := Grown(h, b, l, mem', amt).blocks;
    forall a: nat
      ensures (a in blocks <==> a in h.blocks || a in l) && (a in h.blocks ==> blocks[a] == h.blocks[a])
      ensures a in l ==> a >= h.brk && blocks[a] == b
    {
      GrowMembers(h, b, l, mem', amt, a);
    }
    forall x: nat | base <= x < h.brk + amt ensures InBlock(blocks, pagesz, x) {
      if x < h.brk {
        assert InBlock(h.blocks, pagesz, x);
        var a: nat :| Within(h.blocks, pagesz, a, x);
        assert Within(blocks, pagesz, a, x);
      } else {
        InRow(l, h.brk, Len(pagesz, b), x);
        var a :| a in l && a <= x < a + Len(pagesz, b);
        assert Within(blocks, pagesz, a, x);
      }
    }
  }

  /** Blocks smaller than a page divide it. */
  lemma {:induction false} SzDivides(b: nat, c: nat)
    requires b <= c
    ensures Sz(c) == Power(c - b) * Sz(b)
  {
    if b < c {
      SzDivides(b, c - 1);
    }
  }

  lemma PageDivides(pagesz: nat, pagebucket: nat, b: nat)
    requires pagesz == Sz(pagebucket) && Sz(b) < pagesz
    ensures pagesz / Sz(b) * Sz(b) == pagesz
  {
    SmallerBucket(b, pagebucket);
    SzDivides(b, pagebucket);
    DivTimes(Power(pagebucket - b), Sz(b));
  }

  lemma SmallerBucket(b: nat, c: nat)
    requires Sz(b) < Sz(c)
    ensures b < c
  {
    if b >= c {
      SzGrows(c, b);
    }
  }

  lemma DivTimes(q: nat, d: nat)
    requires d > 0
    ensures q * d / d == q
  {
    DivLess(q * d, q + 1, d);
    DivMore(q * d, q, d);
  }

  lemma DivMore(x: nat, n: nat, d: nat)
    requires d > 0 && x >= n * d
    ensures x / d >= n
  {
    assert x == x / d * d + x % d;
    if x / d < n {
      TimesLess(x / d, n, d);
    }
  }

  /** What morecore cuts is all that it asked for. */
  lemma RowWhole(pagesz: nat, pagebucket: nat, bucket: nat, brk: nat, n: nat, amt: nat)
    requires pagesz == Sz(pagebucket)
    requires if Sz(bucket) < pagesz then amt == pagesz && n == Pieces(amt, Sz(bucket)) else amt == Sz(bucket) + pagesz && n == 1
    ensures amt == n * Len(pagesz, bucket) && Len(pagesz, bucket) > 0
    ensures |Row(brk, Sz(bucket), n)| == n && Consecutive(Row(brk, Sz(bucket), n), brk, Len(pagesz, bucket))
  {
    hide Sz, Power;
    if Sz(bucket) < pagesz {
      PageDivides(pagesz, pagebucket, bucket);
    }
  }

  function Pieces(amt: nat, sz: nat): nat
    requires sz > 0
  {
    amt / sz
  }

  /** What morecore asks for is room for all its blocks. */
  lemma RowApart(h: Heap, pagesz: nat, bucket: nat, n: nat, amt: nat)
    requires Layout(h, pagesz) && h.brk > 0 && Even4(h.brk) && pagesz > 0
    requires if Sz(bucket) < pagesz then amt == pagesz && n == Pieces(amt, Sz(bucket)) else amt == Sz(bucket) + pagesz && n == 1
    ensures n > 0 && Apart(h, Row(h.brk, Sz(bucket), n), Len(pagesz, bucket), amt) && Distinct(Row(h.brk, Sz(bucket), n))
  {
    var sz := Sz(bucket);
    RowFacts(h.brk, sz, n);
    if sz < pagesz {
      Quotient(amt, sz);
    }
  }

  lemma Quotient(x: nat, d: nat)
    requires 0 < d <= x
    ensures x / d > 0 && x / d * d <= x
  {
  }

  ghost predicate PageSize(n: nat) {
    exists b: nat :: b < 18 && n == Sz(b)
  }

  lemma BucketOfPage(n: nat) returns (b: nat)
    requires PageSize(n)
    ensures b < 18 && n == Sz(b)
  {
    b :| b < 18 && n == Sz(b);
  }

  /** address & (pagesz - 1) */
  function PageOffset(address: nat, pagesz: nat): nat
    requires pagesz > 0
  {
    address % pagesz
  }

  predicate PageAligned(brk: nat, pagesz: nat) {
    pagesz > 0 && PageOffset(brk, pagesz) == 0
  }

  lemma AlignedModulo(brk: nat, pagesz: nat)
    requires PageAligned(brk, pagesz)
    ensures pagesz > 0 && PageOffset(brk, pagesz) == 0
  {
  }

  class Allocator {
    const getpagesize: nat
    const limit: nat              // the break cannot go further
    var pagesz: nat
    var pagebucket: nat
    var brk: nat
    const nextf: array<nat>
    const nmalloc: array<int>
    var mem: map<nat, Overhead>
    var bytes: map<nat, int>      // what callers keep in their blocks
    ghost var blocks: map<nat, nat>
    ghost var used: set<nat>
    ghost var lists: seq<seq<nat>>
    ghost var base: nat           // where the blocks begin: the break when setting up is done

    ghost function State(): Heap
      reads this`blocks, this`used, this`lists, this`mem, this`brk, nextf, nmalloc
    {
      Heap(blocks, used, lists, mem, nextf[..], nmalloc[..], brk)
    }

    ghost predicate Valid()
      reads this`base, this`pagesz, this`pagebucket, this`blocks, this`used, this`lists, this`mem, this`brk, nextf, nmalloc
    {
      && nextf != nmalloc as object
      && Sound(State(), getpagesize) && brk > 0 && Even4(brk)
      && PageSize(getpagesize)
      && (pagesz == 0 || (pagesz == getpagesize == Sz(pagebucket) && pagebucket < 18))
      && (pagesz == 0 ==> PageAligned(brk, getpagesize) && brk + getpagesize <= limit && blocks == map[])
      && (pagesz != 0 ==> Tiled(blocks, getpagesize, base, brk))
    }

    constructor (getpagesize: nat, brk: nat, limit: nat)
      requires PageSize(getpagesize)
      requires brk > 0 && PageAligned(brk, getpagesize) && Even4(brk) && brk + getpagesize <= limit
      ensures Valid() && blocks == map[] && used == {} && fresh(nextf) && fresh(nmalloc)
    {
      this.getpagesize, this.brk, this.limit := getpagesize, brk, limit;
      pagesz, pagebucket := 0, 0;
      nextf := new nat[NBUCKETS](_ => 0);
      nmalloc := new int[NBUCKETS](_ => 0);
      mem, bytes, blocks, used := map[], map[], map[], {};
      lists := seq(NBUCKETS, _ => []);
      new;
      assert forall b :: 0 <= b < NBUCKETS ==> Bucket(State(), b) by {
        forall b | 0 <= b < NBUCKETS ensures Bucket(State(), b) {
          assert UsedIn(State(), b) == {};
        }
      }
    }

    /** The old break, or nothing when there is no more memory. */
    method Sbrk(n: nat) returns (ok: bool, op: nat)
      modifies this`brk
      ensures op == old(brk) && ok == (op + n <= limit) && brk == if ok then op + n else op
    {
      op := brk;
      ok := brk + n <= limit;
      if ok {
        brk := brk + n;
      }
    }

    /** The page size, and a break that makes the memory behind a header start a page. */
    method Setup()
      requires Valid() && pagesz == 0
      modifies this`pagesz, this`pagebucket, this`brk, this`base
      ensures Valid() && pagesz == getpagesize != 0
      ensures base == brk == old(brk) + getpagesize - HEADER
    {
      hide Tiled, Sound, Sz, PageAligned, PageOffset, Even4, PageSize;
      ghost var h := State();
      pagesz := getpagesize;
      AlignedModulo(brk, pagesz);
      ghost var b := BucketOfPage(getpagesize);
      Sizes(b, 0);
      var n := pagesz - HEADER - PageOffset(brk, pagesz);
      Even4Size(b);
      Even4Sum(brk, n);
      var ok, op := Sbrk(n);
      BreakUp(h, getpagesize, brk);
      pagebucket := PageBucket(b);
      base := brk;
      TiledNone(getpagesize, brk);
    }

    method PageBucket(ghost b: nat) returns (bucket: nat)
      requires pagesz == Sz(b) && b < 18
      ensures bucket == b
    {
      hide Sz;
      Sizes(b, 0);
      bucket := 0;
      var amt := 8;
      while pagesz > amt
        invariant bucket <= b && amt == Sz(bucket)
        decreases b - bucket
      {
        Sizes(b, bucket);
        amt := amt * 2;
        bucket := bucket + 1;
      }
      Sizes(b, bucket);
    }

    /** The size of a block, the memory to ask for and the blocks it makes; sizes are signed words. */
    method Amount(bucket: nat) returns (some: bool, sz: nat, amt: nat, nblks: nat)
      requires pagesz == Sz(pagebucket) && pagebucket < 18 && bucket <= 28
      ensures some <==> bucket < 28
      ensures some ==> sz == Sz(bucket) && Even4(amt)
      ensures some ==> if sz < pagesz then amt == pagesz && nblks == Pieces(amt, sz) else amt == sz + pagesz && nblks == 1
    {
      hide Sz, Pieces, Even4;
      Sizes(pagebucket, bucket);
      Even4Size(pagebucket);
      Even4Size(bucket);
      sz, amt, nblks := Sz(bucket), 0, 0;
      some := sz < 0x8000_0000;
      if some {
        if sz < pagesz {
          amt := pagesz;
          nblks := Pieces(amt, sz);
        } else {
          Even4Sum(sz, pagesz);
          amt := sz + pagesz;
          nblks := 1;
        }
      }
    }

    /** New free blocks for an empty bucket, unless memory has run out. */
    method Morecore(bucket: nat)
      requires Valid() && pagesz != 0 && bucket <= 28 && lists[bucket] == []
      modifies this`brk, this`mem, this`blocks, this`lists, nextf
      ensures Valid()
      ensures Extends(old(blocks), blocks)
      ensures |lists| == NBUCKETS && (lists[bucket] == [] ==> bucket == 28 || brk + Request(pagesz, bucket) > limit)
      ensures brk - old(brk) == |lists[bucket]| * Len(pagesz, bucket)
      ensures lists == old(lists)[bucket := lists[bucket]]
    {
      hide Tiled, Consecutive, Len, Sound, Sz, Linked, Apart, Distinct, Layout, PageSize, PageAligned, Even4, Pieces, Row, Grown, Extends, At;
      ghost var h := State();
      ExtendsSame(blocks);
      SoundParts(h, pagesz);
      var some, sz, amt, nblks := Amount(bucket);
      if !some {
        return;
      }
      RowApart(h, pagesz, bucket, nblks, amt);
      RowWhole(pagesz, pagebucket, bucket, brk, nblks, amt);
      Even4Sum(brk, amt);
      var ok, op := Sbrk(amt);
      if !ok {
        return;
      }
      ghost var l := Row(op, sz, nblks);
      Carve(bucket, op, sz, nblks);
      GrowSound(h, bucket, l, mem, amt, pagesz);
      GrowTiled(h, bucket, l, mem, amt, pagesz, base);
      GrownFields(h, bucket, l, mem, amt);
      SoundParts(Grown(h, bucket, l, mem, amt), pagesz);
      blocks := Grown(h, bucket, l, mem, amt).blocks;
      lists := Grown(h, bucket, l, mem, amt).lists;
      assert State() == Grown(h, bucket, l, mem, amt);
    }

    /** A block with room for the bytes, from the first bucket that has it; 0 when there is none. */
    method Malloc(nbytes: nat) returns (res: nat)
      requires Valid() && nbytes < WORD
      modifies this`base, this`pagesz, this`pagebucket, this`brk, this`mem, this`blocks, this`used, this`lists, nextf, nmalloc
      ensures Valid() && Extends(old(blocks), blocks)
      ensures NewBlock(getpagesize, blocks, old(used), used, res, nbytes)
      ensures nbytes > Cap(getpagesize, 28) ==> res == 0
      ensures res == 0 ==> NoRoom(getpagesize, lists, brk, limit, nbytes)
      ensures old(pagesz) != 0 ==> base == old(base)
      ensures |lists| == |old(lists)| && forall b :: 0 <= b < |lists| && !Fits(getpagesize, nbytes, b) ==> lists[b] == old(lists)[b]
      ensures forall b :: 0 <= b < |lists| && b <= 28 && Fits(getpagesize, nbytes, b) && old(lists)[b] != [] ==>
                res == old(lists)[b][0] + HEADER && lists[b] == old(lists)[b][1..] && brk == old(brk)
    {
      hide Tiled, Sound, Sz, Cap, Fits, PageAligned, PageSize, Even4, Extends;
      ExtendsSame(blocks);
      SoundParts(State(), getpagesize);
      if pagesz == 0 {
        NoLists(State(), getpagesize);
      }
      if pagesz == 0 {
        Setup();
      }
      SizesOfPage(getpagesize, pagebucket);
      var ok, bucket := Choose(pagesz, pagebucket, nbytes);
      NothingFits(getpagesize, nbytes);
      if !ok {
        return 0;
      }
      OnlyFits(getpagesize, nbytes, bucket);
      SoundParts(State(), pagesz);
      PopFirst(State(), bucket, pagesz);
      if nextf[bucket] == 0 {
        Morecore(bucket);
        SoundParts(State(), pagesz);
        PopFirst(State(), bucket, pagesz);
        if nextf[bucket] == 0 {
          return 0;
        }
      }
      res := Take(bucket);
    }

    method Take(bucket: nat) returns (res: nat)
      requires Valid() && pagesz != 0 && bucket < NBUCKETS && |lists| == NBUCKETS && lists[bucket] != [] && nextf.Length == nmalloc.Length == NBUCKETS
      modifies this`mem, this`used, this`lists, nextf, nmalloc
      ensures Valid() && res > HEADER && res - HEADER in blocks && res - HEADER !in old(used)
      ensures used == old(used) + {res - HEADER} && blocks[res - HEADER] == bucket
      ensures res == old(lists)[bucket][0] + HEADER && lists == old(lists)[bucket := old(lists)[bucket][1..]]
    {
      hide Tiled, Sound, Sz, PageAligned, PageSize, Even4;
      ghost var h := State();
      PopFirst(h, bucket, pagesz);
      PopSound(h, bucket, pagesz);
      var op := nextf[bucket];
      nextf[bucket] := Word(mem, op).next;
      mem := mem[op := InUse(MAGIC, bucket)];
      nmalloc[bucket] := nmalloc[bucket] + 1;
      used := used + {op};
      lists := lists[bucket := lists[bucket][1..]];
      assert State() == Popped(h, bucket);
      res := op + HEADER;
    }

    /** A block in use becomes free; for one that is free already, nothing happens. */
    method Free(cp: nat)
      requires Valid() && (cp != 0 ==> cp >= HEADER && cp - HEADER in blocks)
      modifies this`mem, this`used, this`lists, nextf, nmalloc
      ensures Valid()
      ensures cp != 0 && cp - HEADER in old(used) ==>
                && used == old(used) - {cp - HEADER} && blocks[cp - HEADER] < |old(lists)|
                && lists == old(lists)[blocks[cp - HEADER] := [cp - HEADER] + old(lists)[blocks[cp - HEADER]]]
      ensures cp == 0 || cp - HEADER !in old(used) ==> State() == old(State())
    {
      hide Tiled, Sound, Sz, PageAligned, PageSize, Even4;
      if cp == 0 {
        return;
      }
      var op := cp - HEADER;
      ghost var h := State();
      SoundParts(h, getpagesize);
      TellsUse(h, op, getpagesize);
      if Word(mem, op).OvMagic() != MAGIC {
        return;
      }
      var size := Word(mem, op).index;
      PushSound(h, op, getpagesize);
      mem := mem[op := Link(nextf[size])];
      nextf[size] := op;
      nmalloc[size] := nmalloc[size] - 1;
      used := used - {op};
      lists := lists[size := [op] + lists[size]];
      assert State() == Pushed(h, op);
    }

    /** The block stays when malloc would choose its bucket again; else its contents move to another one. */
    method Realloc(cp: nat, nbytes: nat) returns (res: nat)
      requires Valid() && nbytes < WORD && (cp != 0 ==> cp >= HEADER && cp - HEADER in used && cp - HEADER in blocks)
      modifies this`base, this`pagesz, this`pagebucket, this`brk, this`mem, this`bytes, this`blocks, this`used, this`lists, nextf, nmalloc
      ensures Valid() && Extends(old(blocks), blocks)
      ensures cp == 0 ==> NewBlock(getpagesize, blocks, old(used), used, res, nbytes) && bytes == old(bytes)
      ensures cp != 0 && nbytes > 0 && Fits(getpagesize, nbytes, old(blocks)[cp - HEADER]) ==>
                res == cp && State() == old(State()) && bytes == old(bytes)
      ensures cp != 0 && !(nbytes > 0 && Fits(getpagesize, nbytes, old(blocks)[cp - HEADER])) ==>
                NewBlock(getpagesize, blocks, old(used) - {cp - HEADER}, used, res, nbytes) &&
                if res == 0 then bytes == old(bytes)
                else Copied(old(bytes), bytes, cp, res, Smaller(nbytes, Cap(getpagesize, old(blocks)[cp - HEADER])))
      ensures res == 0 ==> NoRoom(getpagesize, lists, brk, limit, nbytes)
      ensures old(pagesz) != 0 ==> base == old(base)
    {
      hide Tiled, Sound, PageAligned, PageSize, Even4, Extends, Copied, Fits, NewBlock, NoRoom, Cap;
      if cp == 0 {
        res := Malloc(nbytes);
        return;
      }
      ExtendsSame(blocks);
      TellsUse(State(), cp - HEADER, getpagesize);
      var i := Word(mem, cp - HEADER).index;
      var onb, low := Bounds(i);
      KeepIffFits(pagesz, nbytes, i);
      if nbytes <= onb && nbytes > low {
        return cp;
      }
      Free(cp);
      res := Relocate(cp, nbytes, onb);
    }

    /** What a block of bucket i holds, and one of the bucket before it. */
    method Bounds(i: nat) returns (onb: nat, low: nat)
      requires pagesz > 0
      ensures onb == Cap(pagesz, i) && low == if i == 0 then 0 else Cap(pagesz, i - 1)
    {
      onb, low := Sz(i), 0;
      if onb < pagesz {
        onb := onb - HEADER;
      } else {
        onb := onb + pagesz - HEADER;
      }
      if i != 0 {
        low := Sz(i - 1);
        if low < pagesz {
          low := low - HEADER;
        } else {
          low := low + pagesz - HEADER;
        }
      }
    }

    /** A new block with the contents of one that has just been freed. */
    method Relocate(cp: nat, nbytes: nat, onb: nat) returns (res: nat)
      requires Valid() && nbytes < WORD && cp >= HEADER && cp - HEADER in blocks && onb == Cap(getpagesize, blocks[cp - HEADER])
      modifies this`base, this`pagesz, this`pagebucket, this`brk, this`mem, this`bytes, this`blocks, this`used, this`lists, nextf, nmalloc
      ensures Valid() && Extends(old(blocks), blocks)
      ensures NewBlock(getpagesize, blocks, old(used), used, res, nbytes)
      ensures if res == 0 then bytes == old(bytes) else Copied(old(bytes), bytes, cp, res, Smaller(nbytes, onb))
      ensures res != 0 ==> NoHeader(blocks, cp, Smaller(nbytes, onb)) && NoHeader(blocks, res, Smaller(nbytes, onb))
      ensures res == 0 ==> NoRoom(getpagesize, lists, brk, limit, nbytes)
      ensures old(pagesz) != 0 ==> base == old(base)
    {
      hide Tiled, Sound, PageAligned, PageSize, Even4, Copied, NoHeader, NoRoom;
      res := Malloc(nbytes);
      if res == 0 {
        return;
      }
      HeadersOutside(State(), getpagesize, cp - HEADER, Smaller(nbytes, onb));
      HeadersOutside(State(), getpagesize, res - HEADER, Smaller(nbytes, onb));
      if cp != res {
        BlocksApart(State(), getpagesize, cp - HEADER, res - HEADER);
        Bcopy(cp, res, Smaller(nbytes, onb));
      } else {
        CopiedToItself(bytes, cp, Smaller(nbytes, onb));
      }
    }

    method Bcopy(from: nat, to: nat, n: nat)
      requires from + n <= to || to + n <= from
      modifies this`bytes
      ensures Copied(old(bytes), bytes, from, to, n)
    {
      var k: nat := 0;
      while k < n
        invariant k <= n && Copied(old(bytes), bytes, from, to, k)
      {
        CopyStep(old(bytes), bytes, from, to, k);
        bytes := bytes[to + k := Byte(bytes, from + k)];
        k := k + 1;
      }
    }

    /** New memory is cut into blocks, and these are chained. */
    method Carve(bucket: nat, op0: nat, sz: nat, nblks0: nat)
      requires nblks0 > 0 && bucket < nextf.Length && Distinct(Row(op0, sz, nblks0))
      modifies this`mem, nextf
      ensures nextf[..] == old(nextf[..])[bucket := op0]
      ensures |Row(op0, sz, nblks0)| == nblks0 && At(Row(op0, sz, nblks0), 0) == op0 && Linked(old(mem), mem, Row(op0, sz, nblks0), nblks0)
    {
      hide Linked, Distinct, Row;
      ghost var l := Row(op0, sz, nblks0);
      RowNext(op0, sz, nblks0, 0);
      var op := op0;
      nextf[bucket] := op;
      ghost var j := 0;
      LinkedNone(mem, l);
      var nblks := nblks0 - 1;
      while nblks > 0
        invariant 0 <= nblks == |l| - 1 - j && 0 <= j < |l| && op == l[j]
        invariant Linked(old(mem), mem, l, j)
        modifies this`mem
      {
        RowNext(op0, sz, |l|, j);
        LinkedStep(old(mem), mem, l, j);
        mem := mem[op := Link(op + sz)];
        op := op + sz;
        j := j + 1;
        nblks := nblks - 1;
      }
      LinkedLast(old(mem), mem, l);
    }
  }

  lemma RowNext(op: nat, sz: nat, n: nat, j: nat)
    requires j < n
    ensures |Row(op, sz, n)| == n && Row(op, sz, n)[0] == op
    ensures j + 1 < n ==> Row(op, sz, n)[j + 1] == Row(op, sz, n)[j] + sz
  {
    assert (j + 1) * sz == j * sz + sz;
  }

  /** What morecore asks the system for. */
  function Request(pagesz: nat, bucket: nat): nat {
    if Sz(bucket) < pagesz then pagesz else Sz(bucket) + pagesz
  }

  /** There is no bucket for the bytes, or it is empty and cannot be filled. */
  ghost predicate NoRoom(pagesz: nat, lists: seq<seq<nat>>, brk: nat, limit: nat, nbytes: nat) {
    nbytes > Cap(pagesz, 28) ||
    exists b: nat :: b <= 28 && b < |lists| && Fits(pagesz, nbytes, b) && lists[b] == [] && (b == 28 || brk + Request(pagesz, b) > limit)
  }

  /** The result of malloc: nothing, or a block that was not in use, from the first bucket with enough room. */
  ghost predicate NewBlock(pagesz: nat, blocks: map<nat, nat>, used: set<nat>, used': set<nat>, res: nat, nbytes: nat) {
    if res == 0 then used' == used
    else
      && res > HEADER && res - HEADER in blocks && res - HEADER !in used && used' == used + {res - HEADER}
      && Fits(pagesz, nbytes, blocks[res - HEADER])
  }

  function Byte(bytes: map<nat, int>, a: nat): int {
    if a in bytes then bytes[a] else 0
  }

  /** Where the byte at x comes from when n bytes are copied. */
  function Source(from: nat, to: nat, n: nat, x: nat): nat {
    if to <= x < to + n then x - to + from else x
  }

  /** n bytes have been copied, and nothing else has changed. */
  ghost predicate Copied(bytes: map<nat, int>, bytes': map<nat, int>, from: nat, to: nat, n: nat) {
    forall x: nat :: Byte(bytes', x) == Byte(bytes, Source(from, to, n, x))
  }

  lemma CopyStep(bytes: map<nat, int>, bytes': map<nat, int>, from: nat, to: nat, k: nat)
    requires Copied(bytes, bytes', from, to, k) && !(to <= from + k < to + k)
    ensures Copied(bytes, bytes'[to + k := Byte(bytes', from + k)], from, to, k + 1)
  {
    assert Source(from, to, k, from + k) == from + k;
    var now, n := bytes'[to + k := Byte(bytes', from + k)], k + 1;
    forall x: nat ensures Byte(now, x) == Byte(bytes, Source(from, to, n, x)) {
      assert Source(from, to, n, x) == if x == to + k then from + k else Source(from, to, k, x);
    }
  }

  lemma CopiedToItself(bytes: map<nat, int>, cp: nat, n: nat)
    ensures Copied(bytes, bytes, cp, cp, n)
  {
  }

  function Smaller(x: nat, y: int): nat
    requires y >= 0
  {
    if x < y then x else y
  }

  /** The test of realloc asks whether malloc would choose the same bucket. */
  lemma KeepIffFits(pagesz: nat, nbytes: nat, i: nat)
    ensures nbytes <= Cap(pagesz, i) && nbytes > (if i == 0 then 0 else Cap(pagesz, i - 1)) <==> nbytes > 0 && Fits(pagesz, nbytes, i)
  {
  }

  lemma BlocksApart(h: Heap, pagesz: nat, a: nat, c: nat)
    requires Sound(h, pagesz) && a in h.blocks && c in h.blocks && a != c
    ensures a + Len(pagesz, h.blocks[a]) <= c || c + Len(pagesz, h.blocks[c]) <= a
  {
  }

  /** No header of a block is among the n bytes from an address on. */
  ghost predicate NoHeader(blocks: map<nat, nat>, from: nat, n: nat) {
    forall a :: a in blocks ==> a + HEADER <= from || from + n <= a
  }

  /** What a block holds lies apart from all headers, its own and those of others. */
  lemma HeadersOutside(h: Heap, pagesz: nat, c: nat, n: nat)
    requires Sound(h, pagesz) && c in h.blocks && n <= Cap(pagesz, h.blocks[c])
    ensures NoHeader(h.blocks, c + HEADER, n)
  {
    forall a | a in h.blocks ensures a + HEADER <= c + HEADER || c + HEADER + n <= a {
      if a != c {
        BlocksApart(h, pagesz, a, c);
      }
    }
  }

  lemma SizesOfPage(pagesz: nat, b: nat)
    requires pagesz == Sz(b) && b < 18
    ensures b < 28
  {
  }

  lemma FreeWord(h: Heap, op: nat, pagesz: nat)
    requires Sound(h, pagesz) && op in h.blocks && op !in h.used
    ensures Word(h.mem, op).Link? && Word(h.mem, op).next % 4 == 0
  {
    hide Len, UsedIn, Marked;
    var b := h.blocks[op];
    assert Bucket(h, b);
    var l := h.lists[b];
    var j :| 0 <= j < |l| && l[j] == op;
    if j + 1 < |l| {
      assert l[j + 1] in l;
    }
  }

  lemma LowByte(p: nat)
    requires p % 4 == 0
    ensures p % 256 != MAGIC
  {
  }

  /** No pointer to a free block looks like the mark of a block in use. */
  lemma TellsUse(h: Heap, op: nat, pagesz: nat)
    requires Sound(h, pagesz) && op in h.blocks
    ensures h.blocks[op] <= 28
    ensures Word(h.mem, op).OvMagic() == MAGIC <==> op in h.used
    ensures op in h.used ==> Word(h.mem, op) == InUse(MAGIC, h.blocks[op])
  {
    hide Bucket, Len;
    if op !in h.used {
      FreeWord(h, op, pagesz);
      LowByte(Word(h.mem, op).next);
    }
  }

  lemma NoLists(h: Heap, pagesz: nat)
    requires Sound(h, pagesz) && h.blocks == map[]
    ensures forall b :: 0 <= b < |h.lists| ==> h.lists[b] == []
  {
    forall b | 0 <= b < |h.lists| ensures h.lists[b] == [] {
      assert Bucket(h, b);
      assert forall a :: a in h.lists[b] ==> a in h.blocks;
    }
  }

  lemma OnlyFits(pagesz: nat, nbytes: nat, bucket: nat)
    requires Fits(pagesz, nbytes, bucket)
    ensures forall b: nat :: Fits(pagesz, nbytes, b) ==> b == bucket
  {
    forall b: nat | Fits(pagesz, nbytes, b) ensures b == bucket {
      FitsOnce(pagesz, nbytes, b, bucket);
    }
  }

  lemma NothingFits(pagesz: nat, nbytes: nat)
    ensures nbytes > Cap(pagesz, 28) ==> forall b: nat :: b <= 28 ==> !Fits(pagesz, nbytes, b)
  {
    forall b: nat | b <= 28 ensures Cap(pagesz, b) <= Cap(pagesz, 28) {
      CapGrows(pagesz, b, 28);
    }
  }

  lemma SoundParts(h: Heap, pagesz: nat)
    requires Sound(h, pagesz)
    ensures Layout(h, pagesz) && |h.lists| == |h.nextf| == |h.nmalloc| == NBUCKETS
  {
  }

  lemma BreakUp(h: Heap, pagesz: nat, brk: nat)
    requires Sound(h, pagesz) && brk >= h.brk
    ensures Sound(h.(brk := brk), pagesz)
  {
    assert forall b :: 0 <= b < NBUCKETS ==> Bucket(h.(brk := brk), b) by {
      forall b | 0 <= b < NBUCKETS ensures Bucket(h.(brk := brk), b) {
        assert Bucket(h, b) && UsedIn(h.(brk := brk), b) == UsedIn(h, b);
      }
    }
  }
}
