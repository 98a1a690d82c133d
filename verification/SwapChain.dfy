/**
 The swap-chain cache of a layer (hwc2_device/HwcLayer.cpp, ImportFb and SwChain*).

 Buffers of a swap chain come round and round. The lookup table numbers buffer ids in
 the order they first appear; once the first one returns, the chain is complete and the
 import results are remembered by number.
 */
module SwapChain {
  import opened Options

  type BufferId = nat
  type Info = nat
  type Fb = nat

  /** What an import of a buffer yields; either part can fail. */
  datatype Import = Import(bi: Option<Info>, fb: Option<Fb>)

  /** A buffer with its unique id, if the mapper provides one. */
  datatype Buffer = Buffer(uniqueId: Option<BufferId>, raw: nat)

  datatype Chain = Chain(table: map<BufferId, nat>, cache: map<nat, Import>, reassembled: bool)

  const CLEARED := Chain(map[], map[], false)

  function Lookup(c: Chain, id: BufferId): Option<Import> {
    if id in c.table && c.table[id] in c.cache && c.cache[c.table[id]].bi.Some? then Some(c.cache[c.table[id]]) else None
  }

  function Reassemble(c: Chain, id: BufferId): Chain {
    if id in c.table then
      if c.table[id] == |c.table| - 1 then c
      else if c.table[id] == 0 then c.(reassembled := true)
      else CLEARED
    else c.(table := c.table[id := |c.table|])
  }

  function AddCurrent(c: Chain, id: BufferId, data: Import): Chain {
    var c1 := if c.reassembled then c else Reassemble(c, id);
    if !c1.reassembled then c1
    else if id !in c1.table then CLEARED
    else c1.(cache := c1.cache[c1.table[id] := data])
  }

  // ------------------------------------------------------------------------- layer

  /** The part of a layer that imports touch, with the acquire fence set beside the buffer. */
  datatype Layer = Layer(buffer: Option<Buffer>, acquireFence: int, updated: bool, data: Import,
                         biGetFailed: bool, fbImportFailed: bool, chain: Chain)

  const NEW_LAYER := Layer(None, -1, false, Import(None, None), false, false, CLEARED)

  predicate Usable(l: Layer) {
    !l.biGetFailed && !l.fbImportFailed && l.buffer.Some?
  }

  /** Importing the current buffer without consulting the cache. */
  function ImportFresh(l: Layer, importer: Buffer -> Import): Layer
    requires l.buffer.Some?
  {
    var imported := importer(l.buffer.value);
    if imported.bi.None? then l.(data := Import(None, None), biGetFailed := true)
    else l.(data := imported, fbImportFailed := imported.fb.None?)
  }

  /** ImportFb with the cache. */
  function ImportFb(l: Layer, importer: Buffer -> Import): Layer {
    if !Usable(l) || !l.updated then l
    else
      var l1 := l.(updated := false);
      var id := l.buffer.value.uniqueId;
      var hit := if id.Some? then Lookup(l.chain, id.value) else None;
      if hit.Some? then l1.(data := hit.value)
      else
        var l2 := ImportFresh(l1, importer);
        if Usable(l2) && id.Some? then l2.(chain := AddCurrent(l2.chain, id.value, l2.data)) else l2
  }

  /** The same layer if there were no cache. */
  function ImportUncached(l: Layer, importer: Buffer -> Import): Layer {
    if !Usable(l) || !l.updated then l else ImportFresh(l.(updated := false), importer)
  }

  // --------------------------------------------------------------------- invariant

  /** The numbers given out are below the size, each given to one id. */
  ghost predicate OneEach(table: map<BufferId, nat>) {
    && (forall id :: id in table ==> table[id] < |table|)
    && (forall a, b :: a in table && b in table && table[a] == table[b] ==> a == b)
  }

  /** The numbers given out are exactly 0 .. size - 1, each to one id. */
  ghost predicate Numbered(table: map<BufferId, nat>) {
    && OneEach(table)
    && (forall n :: 0 <= n < |table| ==> GivenOut(table, n))
  }

  ghost predicate GivenOut(table: map<BufferId, nat>, n: int) {
    exists id :: id in table && table[id] == n
  }

  /** The importer's answer depends on the unique id only, for buffers that have one. */
  ghost predicate ById(importer: Buffer -> Import) {
    forall a: Buffer, b: Buffer :: a.uniqueId.Some? && a.uniqueId == b.uniqueId ==> importer(a) == importer(b)
  }

  /** A usable import, and what a fresh import of any buffer with this id gives. */
  ghost predicate ImportOf(data: Import, id: BufferId, importer: Buffer -> Import) {
    && data.bi.Some? && data.fb.Some?
    && (forall raw :: importer(Buffer(Some(id), raw)) == data)
  }

  /** Everything remembered is what a fresh import of that buffer gives. */
  ghost predicate Faithful(c: Chain, importer: Buffer -> Import) {
    && Numbered(c.table)
    && (!c.reassembled ==> c.cache == map[])
    && (forall id :: id in c.table && c.table[id] in c.cache ==> ImportOf(c.cache[c.table[id]], id, importer))
  }

  lemma NumberedExtends(table: map<BufferId, nat>, id: BufferId)
    requires Numbered(table) && id !in table
    ensures Numbered(table[id := |table|])
  {
    var t := table[id := |table|];
    assert |t| == |table| + 1;
    forall n | 0 <= n < |t|
      ensures GivenOut(t, n)
    {
      if n < |table| {
        assert GivenOut(table, n);
        var k :| k in table && table[k] == n;
        assert k in t && t[k] == n;
      } else {
        assert t[id] == n;
      }
    }
  }

  lemma AddCurrentFaithful(c: Chain, id: BufferId, raw: nat, importer: Buffer -> Import)
    requires Faithful(c, importer) && ById(importer)
    requires importer(Buffer(Some(id), raw)).bi.Some? && importer(Buffer(Some(id), raw)).fb.Some?
    ensures Faithful(AddCurrent(c, id, importer(Buffer(Some(id), raw))), importer)
  {
    if !c.reassembled && id !in c.table {
      NumberedExtends(c.table, id);
    }
    assert ImportOf(importer(Buffer(Some(id), raw)), id, importer);
  }

  /**
   Cache transparency: on a faithful cache an import gives the layer exactly the data and
   failure flags it would have without any cache, and the cache stays faithful.
   */
  lemma ImportTransparent(l: Layer, importer: Buffer -> Import)
    requires Faithful(l.chain, importer) && ById(importer)
    ensures Faithful(ImportFb(l, importer).chain, importer)
    ensures ImportFb(l, importer).(chain := CLEARED) == ImportUncached(l, importer).(chain := CLEARED)
  {
    if Usable(l) && l.updated {
      var b := l.buffer.value;
      if b.uniqueId.Some? {
        assert b == Buffer(Some(b.uniqueId.value), b.raw);
        var imported := importer(b);
        if Lookup(l.chain, b.uniqueId.value).None? && imported.bi.Some? && imported.fb.Some? {
          AddCurrentFaithful(l.chain, b.uniqueId.value, b.raw, importer);
        }
      }
    }
  }

  /**
   What an import attempt makes of a layer: the new data, or the flag of the part that
   failed, which makes the layer unusable.
   */
  lemma ImportVerdict(l: Layer, importer: Buffer -> Import)
    requires Usable(l) && l.updated
    ensures var l', imported := ImportUncached(l, importer), importer(l.buffer.value);
            && !l'.updated && l'.chain == l.chain && l'.buffer == l.buffer
            && (l'.biGetFailed <==> imported.bi.None?)
            && (l'.fbImportFailed <==> imported.bi.Some? && imported.fb.None?)
            && (Usable(l') <==> imported.bi.Some? && imported.fb.Some?)
            && (Usable(l') ==> l'.data == imported)
  {
  }

  datatype Op = SetBuffer(buffer: Option<Buffer>, fence: int) | ImportOp | ClearOp

  function Step(l: Layer, op: Op, importer: Buffer -> Import, cached: bool): Layer {
    match op
    case SetBuffer(b, fence) => l.(buffer := b, acquireFence := fence, updated := true)
    case ImportOp => if cached then ImportFb(l, importer) else ImportUncached(l, importer)
    case ClearOp => l.(chain := CLEARED)
  }

  function Steps(l: Layer, ops: seq<Op>, importer: Buffer -> Import, cached: bool): Layer
    decreases |ops|
  {
    if ops == [] then l else Steps(Step(l, ops[0], importer, cached), ops[1..], importer, cached)
  }

  /** Over every run, a layer with the cache is the layer without it. */
  lemma {:induction false} RunTransparent(l: Layer, u: Layer, ops: seq<Op>, importer: Buffer -> Import)
    requires Faithful(l.chain, importer) && ById(importer)
    requires l.(chain := CLEARED) == u.(chain := CLEARED)
    ensures Steps(l, ops, importer, true).(chain := CLEARED) == Steps(u, ops, importer, false).(chain := CLEARED)
    decreases |ops|
  {
    if ops != [] {
      ImportTransparent(l, importer);
      RunTransparent(Step(l, ops[0], importer, true), Step(u, ops[0], importer, false), ops[1..], importer);
    }
  }

  /** A layer that failed once imports nothing any more. */
  lemma {:induction false} FailedForGood(l: Layer, ops: seq<Op>, importer: Buffer -> Import, cached: bool)
    requires l.biGetFailed || l.fbImportFailed
    ensures var l' := Steps(l, ops, importer, cached);
            l'.data == l.data && (l'.biGetFailed, l'.fbImportFailed) == (l.biGetFailed, l.fbImportFailed)
    decreases |ops|
  {
    if ops != [] {
      FailedForGood(Step(l, ops[0], importer, cached), ops[1..], importer, cached);
    }
  }

  lemma ImportNumbered(l: Layer, importer: Buffer -> Import)
    requires Numbered(l.chain.table)
    ensures Numbered(ImportFb(l, importer).chain.table)
  {
    if Usable(l) && l.updated && l.buffer.value.uniqueId.Some? {
      var id := l.buffer.value.uniqueId.value;
      if id !in l.chain.table {
        NumberedExtends(l.chain.table, id);
      }
    }
  }

  /** Over every run and for any importer, the numbers given out are 0 .. size - 1, each to one id. */
  lemma {:induction false} RunNumbered(l: Layer, ops: seq<Op>, importer: Buffer -> Import)
    requires Numbered(l.chain.table)
    ensures Numbered(Steps(l, ops, importer, true).chain.table)
    decreases |ops|
  {
    if ops != [] {
      ImportNumbered(l, importer);
      RunNumbered(Step(l, ops[0], importer, true), ops[1..], importer);
    }
  }

  // ----------------------------------------------------------- periodic buffer streams

  /** The place of frame `k` in a cycle of `n` buffers. */
  function Turn(k: nat, n: nat): (t: nat)
    requires n > 0
    ensures t < n && (k < n ==> t == k) && (n <= k < 2 * n ==> t == k - n)
  {
    if k < n then k else Turn(k - n, n)
  }

  /** One frame: serve the buffer from the cache, or import it and count the import. */
  function ServeFrame(s: (Chain, nat), id: BufferId, importer: BufferId -> Import): (Chain, nat) {
    if Lookup(s.0, id).Some? then s else (AddCurrent(s.0, id, importer(id)), s.1 + 1)
  }

  /** A run of the cache over a stream that cycles through `ids`: cache and imports before each frame. */
  ghost predicate PlaysCycle(run: seq<(Chain, nat)>, ids: seq<BufferId>, importer: BufferId -> Import)
    requires ids != []
  {
    && run != [] && run[0] == (CLEARED, 0)
    && (forall k {:trigger FrameServed(run, k, ids, importer)} :: 0 <= k < |run| - 1 ==> FrameServed(run, k, ids, importer))
  }

  ghost predicate FrameServed(run: seq<(Chain, nat)>, k: nat, ids: seq<BufferId>, importer: BufferId -> Import)
    requires ids != [] && k + 1 < |run|
  {
    run[k + 1] == ServeFrame(run[k], ids[Turn(k, |ids|)], importer)
  }

  /** The table after the first `k` of `ids`. */
  function Prefix(ids: seq<BufferId>, k: nat): map<BufferId, nat>
    requires k <= |ids|
  {
    if k == 0 then map[] else Prefix(ids, k - 1)[ids[k - 1] := k - 1]
  }

  ghost predicate AllDifferent(ids: seq<BufferId>) {
    forall i, j :: 0 <= i < j < |ids| ==> ids[i] != ids[j]
  }

  lemma {:induction false} PrefixTable(ids: seq<BufferId>, k: nat)
    requires AllDifferent(ids) && k <= |ids|
    ensures var t := Prefix(ids, k);
            && |t| == k
            && (forall i :: 0 <= i < k ==> ids[i] in t && t[ids[i]] == i)
            && (forall i :: k <= i < |ids| ==> ids[i] !in t)
  {
    if k > 0 {
      PrefixTable(ids, k - 1);
    }
  }

  lemma PrefixNext(ids: seq<BufferId>, k: nat)
    requires AllDifferent(ids) && 0 < k <= |ids|
    ensures var t := Prefix(ids, k - 1);
            ids[k - 1] !in t && |t| == k - 1 && Prefix(ids, k) == t[ids[k - 1] := k - 1]
  {
    PrefixTable(ids, k - 1);
  }

  ghost predicate Imports(importer: BufferId -> Import) {
    forall id :: importer(id).bi.Some? && importer(id).fb.Some?
  }

  /** A frame of the first round: the buffer is new and only gets its number. */
  lemma NumberNext(t: map<BufferId, nat>, id: BufferId, imports: nat, importer: BufferId -> Import)
    requires id !in t
    ensures ServeFrame((Chain(t, map[], false), imports), id, importer)
         == (Chain(t[id := |t|], map[], false), imports + 1)
  {
  }

  /** First round: every buffer is new, is numbered, and nothing is remembered yet. */
  lemma {:induction false} FirstRound(run: seq<(Chain, nat)>, ids: seq<BufferId>, k: nat, importer: BufferId -> Import)
    requires ids != [] && AllDifferent(ids) && k <= |ids| && k < |run| && PlaysCycle(run, ids, importer)
    ensures run[k] == (Chain(Prefix(ids, k), map[], false), k)
  {
    if k > 0 {
      FirstRound(run, ids, k - 1, importer);
      PrefixNext(ids, k);
      assert FrameServed(run, k - 1, ids, importer);
      NumberNext(Prefix(ids, k - 1), ids[k - 1], k - 1, importer);
    }
  }

  /** What is remembered once `m` buffers of the second round have passed. */
  function Remembered(ids: seq<BufferId>, m: nat, importer: BufferId -> Import): map<nat, Import>
    requires m <= |ids|
  {
    map n: nat | n < m :: importer(ids[n])
  }

  /** A frame of the second round: the next buffer of a numbered chain is remembered. */
  lemma RememberNext(ids: seq<BufferId>, t: map<BufferId, nat>, m: nat, imports: nat, importer: BufferId -> Import)
    requires |ids| >= 2 && m < |ids| == |t|
    requires ids[m] in t && t[ids[m]] == m
    ensures ServeFrame((Chain(t, Remembered(ids, m, importer), m > 0), imports), ids[m], importer)
         == (Chain(t, Remembered(ids, m + 1, importer), true), imports + 1)
  {
    assert Remembered(ids, m + 1, importer) == Remembered(ids, m, importer)[m := importer(ids[m])];
  }

  /** Second round: the return of the first buffer completes the chain; each buffer is imported once more. */
  lemma {:induction false} SecondRound(run: seq<(Chain, nat)>, ids: seq<BufferId>, m: nat, importer: BufferId -> Import)
    requires |ids| >= 2 && AllDifferent(ids) && m <= |ids| && |ids| + m < |run| && PlaysCycle(run, ids, importer)
    ensures run[|ids| + m] == (Chain(Prefix(ids, |ids|), Remembered(ids, m, importer), m > 0), |ids| + m)
  {
    if m == 0 {
      FirstRound(run, ids, |ids|, importer);
      assert Remembered(ids, 0, importer) == map[];
    } else {
      SecondRound(run, ids, m - 1, importer);
      PrefixTable(ids, |ids|);
      assert FrameServed(run, |ids| + m - 1, ids, importer);
      RememberNext(ids, Prefix(ids, |ids|), m - 1, |ids| + m - 1, importer);
    }
  }

  /** From the third round on nothing changes any more. */
  lemma {:induction false} LaterRounds(run: seq<(Chain, nat)>, ids: seq<BufferId>, k: nat, importer: BufferId -> Import)
    requires |ids| >= 2 && AllDifferent(ids) && Imports(importer) && 2 * |ids| <= k < |run| && PlaysCycle(run, ids, importer)
    ensures run[k] == (Chain(Prefix(ids, |ids|), Remembered(ids, |ids|, importer), true), 2 * |ids|)
    ensures Lookup(run[k].0, ids[Turn(k, |ids|)]) == Some(importer(ids[Turn(k, |ids|)]))
    decreases k
  {
    var n := |ids|;
    PrefixTable(ids, n);
    if k == 2 * n {
      SecondRound(run, ids, n, importer);
    } else {
      LaterRounds(run, ids, k - 1, importer);
      assert FrameServed(run, k - 1, ids, importer);
    }
  }

  /**
   A chain of two or more buffers is imported exactly twice per buffer and served from the
   cache forever after.
   */
  lemma ImportsOfCycle(run: seq<(Chain, nat)>, ids: seq<BufferId>, k: nat, importer: BufferId -> Import)
    requires |ids| >= 2 && AllDifferent(ids) && Imports(importer) && k < |run| && PlaysCycle(run, ids, importer)
    ensures run[k].1 == if k < 2 * |ids| then k else 2 * |ids|
    ensures k >= 2 * |ids| ==> Lookup(run[k].0, ids[Turn(k, |ids|)]) == Some(importer(ids[Turn(k, |ids|)]))
  {
    if k <= |ids| {
      FirstRound(run, ids, k, importer);
    } else if k < 2 * |ids| {
      SecondRound(run, ids, k - |ids|, importer);
    } else {
      LaterRounds(run, ids, k, importer);
    }
  }

  /** A chain of a single buffer is never taken for complete: every frame imports it anew. */
  lemma {:induction false} SingleBufferNeverCached(run: seq<(Chain, nat)>, id: BufferId, k: nat, importer: BufferId -> Import)
    requires k < |run| && PlaysCycle(run, [id], importer)
    ensures run[k] == (if k == 0 then CLEARED else Chain(map[id := 0], map[], false), k)
  {
    if k > 0 {
      SingleBufferNeverCached(run, id, k - 1, importer);
      assert FrameServed(run, k - 1, [id], importer);
    }
  }

  // ------------------------------------------------------ streams from any cache state

  /** `met[k]` is the buffer of frame `k`, and `run` holds cache and imports before each frame, from any state on. */
  ghost predicate Plays(run: seq<(Chain, nat)>, met: seq<BufferId>, importer: BufferId -> Import) {
    && |run| == |met| + 1
    && (forall k {:trigger Served(run, met, k, importer)} :: 0 <= k < |met| ==> Served(run, met, k, importer))
  }

  ghost predicate Served(run: seq<(Chain, nat)>, met: seq<BufferId>, k: nat, importer: BufferId -> Import)
    requires |run| == |met| + 1 && k < |met|
  {
    run[k + 1] == ServeFrame(run[k], met[k], importer)
  }

  ghost predicate Repeats(met: seq<BufferId>, n: nat, k: nat)
    requires n <= k < |met|
  {
    met[k] == met[k - n]
  }

  /** The frames cycle through `n` buffers. */
  ghost predicate Cyclic(met: seq<BufferId>, n: nat) {
    && 2 <= n <= |met| && AllDifferent(met[..n])
    && (forall k {:trigger Repeats(met, n, k)} :: n <= k < |met| ==> Repeats(met, n, k))
  }

  lemma PlaysLater(run: seq<(Chain, nat)>, met: seq<BufferId>, a: nat, importer: BufferId -> Import)
    requires Plays(run, met, importer) && a <= |met|
    ensures Plays(run[a..], met[a..], importer)
  {
    var run', met' := run[a..], met[a..];
    forall k | 0 <= k < |met'|
      ensures Served(run', met', k, importer)
    {
      assert Served(run, met, a + k, importer);
    }
  }

  /** A cycle met from the second frame on is the cycle turned by one. */
  lemma CyclicNext(met: seq<BufferId>, n: nat)
    requires Cyclic(met, n) && n < |met|
    ensures Cyclic(met[1..], n)
  {
    var later := met[1..];
    assert Repeats(met, n, n);
    assert forall i :: 0 <= i < n - 1 ==> later[..n][i] == met[..n][i + 1];
    forall k | n <= k < |later|
      ensures Repeats(later, n, k)
    {
      assert Repeats(met, n, k + 1);
    }
  }

  lemma {:induction false} CyclicLater(met: seq<BufferId>, n: nat, a: nat)
    requires Cyclic(met, n) && a + n <= |met|
    ensures Cyclic(met[a..], n)
    decreases a
  {
    if a == 0 {
      assert met[0..] == met;
    } else {
      CyclicNext(met, n);
      CyclicLater(met[1..], n, a - 1);
      assert met[1..][a - 1..] == met[a..];
    }
  }

  /** The first round of a cycle meets all its buffers. */
  lemma {:induction false} MetInFirstRound(met: seq<BufferId>, n: nat, k: nat)
    requires Cyclic(met, n) && k < |met|
    ensures met[k] == met[..n][Turn(k, n)]
    decreases k
  {
    if k >= n {
      assert Repeats(met, n, k);
      MetInFirstRound(met, n, k - n);
    }
  }

  /** Frames import at most once each, and the count only adds up. */
  lemma {:induction false} CountGrows(run: seq<(Chain, nat)>, met: seq<BufferId>, k: nat, importer: BufferId -> Import)
    requires Plays(run, met, importer) && k < |run|
    ensures run[0].1 <= run[k].1 <= run[0].1 + k
  {
    if k > 0 {
      CountGrows(run, met, k - 1, importer);
      assert Served(run, met, k - 1, importer);
    }
  }

  /** The same run with the imports counted from its start. */
  lemma Recounted(run: seq<(Chain, nat)>, met: seq<BufferId>, n: nat, importer: BufferId -> Import)
    returns (run': seq<(Chain, nat)>)
    requires Plays(run, met, importer) && Cyclic(met, n) && run[0].0 == CLEARED
    ensures |run'| == |run| && PlaysCycle(run', met[..n], importer)
    ensures forall k :: 0 <= k < |run| ==> run'[k].0 == run[k].0
  {
    forall k | 0 <= k < |run|
      ensures run[0].1 <= run[k].1
    {
      CountGrows(run, met, k, importer);
    }
    run' := seq(|run|, k requires 0 <= k < |run| => (run[k].0, run[k].1 - run[0].1));
    forall k | 0 <= k < |run'| - 1
      ensures FrameServed(run', k, met[..n], importer)
    {
      assert Served(run, met, k, importer);
      MetInFirstRound(met, n, k);
    }
  }

  /** From an empty cache on, everything is served from the third round of the cycle. */
  lemma FreshSettles(run: seq<(Chain, nat)>, met: seq<BufferId>, n: nat, k: nat, importer: BufferId -> Import)
    requires Plays(run, met, importer) && Cyclic(met, n) && Imports(importer)
    requires run[0].0 == CLEARED && 2 * n <= k < |met|
    ensures Lookup(run[k].0, met[k]).Some?
  {
    var run' := Recounted(run, met, n, importer);
    LaterRounds(run', met[..n], k, importer);
    MetInFirstRound(met, n, k);
  }

  /** What every import keeps of the remembered data, whatever the buffers were. */
  ghost predicate Kept(c: Chain) {
    (!c.reassembled ==> c.cache == map[]) && forall n :: n in c.cache ==> c.cache[n].bi.Some?
  }

  lemma {:induction false} StaysKept(run: seq<(Chain, nat)>, met: seq<BufferId>, k: nat, importer: BufferId -> Import)
    requires Plays(run, met, importer) && k < |run| && Kept(run[0].0) && Imports(importer)
    ensures Kept(run[k].0)
  {
    if k > 0 {
      StaysKept(run, met, k - 1, importer);
      assert Served(run, met, k - 1, importer);
    }
  }

  lemma {:induction false} StaysOneEach(run: seq<(Chain, nat)>, met: seq<BufferId>, k: nat, importer: BufferId -> Import)
    requires Plays(run, met, importer) && k < |run| && OneEach(run[0].0.table)
    ensures OneEach(run[k].0.table)
  {
    if k > 0 {
      StaysOneEach(run, met, k - 1, importer);
      assert Served(run, met, k - 1, importer);
    }
  }

  /** A complete chain that knows the buffers it meets keeps its numbers and remembers each of them. */
  lemma {:induction false} KnownRemembered(run: seq<(Chain, nat)>, met: seq<BufferId>, k: nat, importer: BufferId -> Import)
    requires Plays(run, met, importer) && k < |run|
    requires Kept(run[0].0) && run[0].0.reassembled && Imports(importer)
    requires forall i :: 0 <= i < k ==> met[i] in run[0].0.table
    ensures run[k].0.table == run[0].0.table && run[k].0.reassembled && Kept(run[k].0)
    ensures forall i :: 0 <= i < k ==> Lookup(run[k].0, met[i]).Some?
  {
    if k > 0 {
      KnownRemembered(run, met, k - 1, importer);
      assert Served(run, met, k - 1, importer);
    }
  }

  /** The first buffer a complete chain does not know clears it. */
  lemma UnknownClears(run: seq<(Chain, nat)>, met: seq<BufferId>, f: nat, importer: BufferId -> Import)
    requires Plays(run, met, importer) && f < |met|
    requires Kept(run[0].0) && run[0].0.reassembled && Imports(importer)
    requires met[f] !in run[0].0.table && forall i :: 0 <= i < f ==> met[i] in run[0].0.table
    ensures run[f + 1].0 == CLEARED
  {
    KnownRemembered(run, met, f, importer);
    assert Served(run, met, f, importer);
  }

  /** A complete chain that knows the whole cycle remembers all of it after one round. */
  lemma KnownSettles(run: seq<(Chain, nat)>, met: seq<BufferId>, n: nat, k: nat, importer: BufferId -> Import)
    requires Plays(run, met, importer) && Cyclic(met, n) && n <= k < |met|
    requires Kept(run[0].0) && run[0].0.reassembled && Imports(importer)
    requires forall i :: 0 <= i < n ==> met[i] in run[0].0.table
    ensures Lookup(run[k].0, met[k]).Some?
  {
    forall i | 0 <= i < k
      ensures met[i] in run[0].0.table
    {
      MetInFirstRound(met, n, i);
    }
    KnownRemembered(run, met, k, importer);
    MetInFirstRound(met, n, k);
  }

  /** The first of `met` that is not in the table, if there is one. */
  function FirstUnknown(table: map<BufferId, nat>, met: seq<BufferId>): (f: nat)
    ensures f <= |met| && (forall i :: 0 <= i < f ==> met[i] in table)
    ensures f < |met| ==> met[f] !in table
  {
    if met == [] || met[0] !in table then 0 else 1 + FirstUnknown(table, met[1..])
  }

  /** Once the chain has been cleared, it settles like a new one. */
  lemma SettlesLater(run: seq<(Chain, nat)>, met: seq<BufferId>, n: nat, a: nat, k: nat, importer: BufferId -> Import)
    requires Plays(run, met, importer) && Cyclic(met, n) && Imports(importer)
    requires a + 2 * n <= k < |met| && run[a].0 == CLEARED
    ensures Lookup(run[k].0, met[k]).Some?
  {
    PlaysLater(run, met, a, importer);
    CyclicLater(met, n, a);
    FreshSettles(run[a..], met[a..], n, k - a, importer);
  }

  /** From a complete chain on: a buffer it does not know clears it, otherwise one round fills it. */
  lemma CompleteSettles(run: seq<(Chain, nat)>, met: seq<BufferId>, n: nat, k: nat, importer: BufferId -> Import)
    requires Plays(run, met, importer) && Cyclic(met, n) && Imports(importer)
    requires Kept(run[0].0) && run[0].0.reassembled && 3 * n <= k < |met|
    ensures Lookup(run[k].0, met[k]).Some?
  {
    var f := FirstUnknown(run[0].0.table, met[..n]);
    if f < n {
      UnknownClears(run, met, f, importer);
      SettlesLater(run, met, n, f + 1, k, importer);
    } else {
      KnownSettles(run, met, n, k, importer);
    }
  }

  /** The chain was cleared or completed. */
  predicate Turned(c: Chain) {
    c == CLEARED || c.reassembled
  }

  /** A frame that leaves an incomplete chain incomplete makes its buffer the last one. */
  lemma NumbersLast(s: (Chain, nat), id: BufferId, importer: BufferId -> Import)
    requires Kept(s.0) && !s.0.reassembled && !Turned(ServeFrame(s, id, importer).0)
    ensures var t := ServeFrame(s, id, importer).0.table;
            id in t && t[id] == |t| - 1 && forall other :: other in s.0.table ==> other in t
  {
  }

  /** A frame with a buffer that is numbered, but not last, clears or completes the chain. */
  lemma ReturnTurns(s: (Chain, nat), id: BufferId, importer: BufferId -> Import)
    requires Kept(s.0) && !s.0.reassembled && id in s.0.table && s.0.table[id] != |s.0.table| - 1
    ensures Turned(ServeFrame(s, id, importer).0)
  {
  }

  /** An incomplete chain that is neither cleared nor completed numbers every buffer it meets, the latest last. */
  lemma {:induction false} StillNumbering(run: seq<(Chain, nat)>, met: seq<BufferId>, k: nat, importer: BufferId -> Import)
    requires Plays(run, met, importer) && k < |run|
    requires Kept(run[0].0) && !run[0].0.reassembled && Imports(importer)
    requires forall i :: 1 <= i <= k ==> !Turned(run[i].0)
    ensures !run[k].0.reassembled
    ensures forall i :: 0 <= i < k ==> met[i] in run[k].0.table
    ensures k > 0 ==> run[k].0.table[met[k - 1]] == |run[k].0.table| - 1
  {
    if k > 0 {
      StillNumbering(run, met, k - 1, importer);
      StaysKept(run, met, k - 1, importer);
      assert Served(run, met, k - 1, importer) && !Turned(run[k].0);
      NumbersLast(run[k - 1], met[k - 1], importer);
    }
  }

  /** After a round without such an event, the return of the first buffer is one. */
  lemma RoundTurns(run: seq<(Chain, nat)>, met: seq<BufferId>, n: nat, importer: BufferId -> Import)
    requires Plays(run, met, importer) && Cyclic(met, n) && n < |met| && Imports(importer)
    requires Kept(run[0].0) && OneEach(run[0].0.table) && !run[0].0.reassembled
    requires forall i :: 1 <= i <= n ==> !Turned(run[i].0)
    ensures Turned(run[n + 1].0)
  {
    StillNumbering(run, met, n, importer);
    StaysKept(run, met, n, importer);
    StaysOneEach(run, met, n, importer);
    assert Repeats(met, n, n) && met[..n][0] != met[..n][n - 1];
    ReturnTurns(run[n], met[n], importer);
    assert Served(run, met, n, importer);
  }

  /** The first frame from the second up to `n` before which the chain was cleared or completed, or `n`. */
  function FirstTurned(run: seq<(Chain, nat)>, n: nat): (e: nat)
    requires 1 <= n <= |run|
    ensures 1 <= e <= n && (e < n ==> Turned(run[e].0)) && forall i :: 1 <= i < e ==> !Turned(run[i].0)
  {
    if n == 1 then 1
    else
      var e := FirstTurned(run, n - 1);
      if e < n - 1 || Turned(run[n - 1].0) then e else n
  }

  /** From any state of the cache a cycle of two or more buffers is served from the cache in the end. */
  lemma CycleSettles(run: seq<(Chain, nat)>, met: seq<BufferId>, n: nat, k: nat, importer: BufferId -> Import)
    requires Plays(run, met, importer) && Cyclic(met, n) && Imports(importer)
    requires Kept(run[0].0) && OneEach(run[0].0.table) && 4 * n + 1 <= k < |met|
    ensures Lookup(run[k].0, met[k]).Some?
  {
    if run[0].0.reassembled {
      CompleteSettles(run, met, n, k, importer);
    } else {
      var e := FirstTurned(run, n + 1);
      if e == n + 1 {
        RoundTurns(run, met, n, importer);
      }
      SettlesOnceTurned(run, met, n, e, k, importer);
    }
  }

  lemma SettlesOnceTurned(run: seq<(Chain, nat)>, met: seq<BufferId>, n: nat, e: nat, k: nat, importer: BufferId -> Import)
    requires Plays(run, met, importer) && Cyclic(met, n) && Imports(importer)
    requires Kept(run[0].0) && e + 3 * n <= k < |met| && Turned(run[e].0)
    ensures Lookup(run[k].0, met[k]).Some?
  {
    if run[e].0.reassembled {
      StaysKept(run, met, e, importer);
      PlaysLater(run, met, e, importer);
      CyclicLater(met, n, e);
      CompleteSettles(run[e..], met[e..], n, k - e, importer);
    } else {
      SettlesLater(run, met, n, e, k, importer);
    }
  }

  /** So the imports come to an end: none after 4n + 1 frames, whatever the cache held before. */
  lemma {:induction false} ImportsEnd(run: seq<(Chain, nat)>, met: seq<BufferId>, n: nat, k: nat, importer: BufferId -> Import)
    requires Plays(run, met, importer) && Cyclic(met, n) && Imports(importer)
    requires Kept(run[0].0) && OneEach(run[0].0.table) && 4 * n + 1 <= k <= |met|
    ensures run[k] == run[4 * n + 1] && run[k].1 <= run[0].1 + 4 * n + 1
  {
    if k == 4 * n + 1 {
      CountGrows(run, met, k, importer);
    } else {
      ImportsEnd(run, met, n, k - 1, importer);
      CycleSettles(run, met, n, k - 1, importer);
      assert Served(run, met, k - 1, importer);
    }
  }

  // ------------------------------------------------- the same streams through a layer

  /** An import that reaches the importer. */
  predicate CallsImporter(l: Layer) {
    && Usable(l) && l.updated
    && (l.buffer.value.uniqueId.None? || Lookup(l.chain, l.buffer.value.uniqueId.value).None?)
  }

  /** How often a run of operations reaches the importer. */
  function ImportCount(l: Layer, ops: seq<Op>, importer: Buffer -> Import): nat
    decreases |ops|
  {
    if ops == [] then 0
    else (if ops[0].ImportOp? && CallsImporter(l) then 1 else 0)
         + ImportCount(Step(l, ops[0], importer, true), ops[1..], importer)
  }

  lemma {:induction false} RunConcat(l: Layer, a: seq<Op>, b: seq<Op>, importer: Buffer -> Import)
    ensures Steps(l, a + b, importer, true) == Steps(Steps(l, a, importer, true), b, importer, true)
    ensures ImportCount(l, a + b, importer)
         == ImportCount(l, a, importer) + ImportCount(Steps(l, a, importer, true), b, importer)
    decreases |a|
  {
    if a == [] {
      assert a + b == b;
    } else {
      assert (a + b)[0] == a[0] && (a + b)[1..] == a[1..] + b;
      RunConcat(Step(l, a[0], importer, true), a[1..], b, importer);
    }
  }

  /** One frame as the client issues it: a buffer of the chain, then its import. */
  function FrameOps(id: BufferId, raw: nat, fence: int): seq<Op> {
    [SetBuffer(Some(Buffer(Some(id), raw)), fence), ImportOp]
  }

  /** The first `k` frames of a stream that cycles through `ids`. */
  function StreamOps(ids: seq<BufferId>, k: nat, raw: nat -> nat, fence: nat -> int): (ops: seq<Op>)
    requires ids != []
  {
    if k == 0 then []
    else StreamOps(ids, k - 1, raw, fence) + FrameOps(ids[Turn(k - 1, |ids|)], raw(k - 1), fence(k - 1))
  }

  ghost predicate AlwaysImports(importer: Buffer -> Import) {
    forall b :: importer(b).bi.Some? && importer(b).fb.Some?
  }

  function ByIdOnly(importer: Buffer -> Import): BufferId -> Import {
    (id: BufferId) => importer(Buffer(Some(id), 0))
  }

  predicate Failed(l: Layer) {
    l.biGetFailed || l.fbImportFailed
  }

  lemma TwoOps(l: Layer, a: Op, b: Op, importer: Buffer -> Import)
    ensures var l1 := Step(l, a, importer, true);
            && Steps(l, [a, b], importer, true) == Step(l1, b, importer, true)
            && ImportCount(l, [a, b], importer)
               == (if a.ImportOp? && CallsImporter(l) then 1 else 0) + (if b.ImportOp? && CallsImporter(l1) then 1 else 0)
  {
    var l1 := Step(l, a, importer, true);
    var l2 := Step(l1, b, importer, true);
    assert [a, b][1..] == [b] && [b][1..] == [];
    assert Steps(l2, [], importer, true) == l2 && ImportCount(l2, [], importer) == 0;
    assert Steps(l1, [b], importer, true) == l2;
    assert ImportCount(l1, [b], importer) == if b.ImportOp? && CallsImporter(l1) then 1 else 0;
  }

  /** A frame through a layer is a frame through the cache, and counts as one. */
  lemma LayerServesFrame(l: Layer, id: BufferId, raw: nat, fence: int, imports: nat, importer: Buffer -> Import)
    requires !Failed(l)
    requires ById(importer) && AlwaysImports(importer)
    ensures var l', ops := Steps(l, FrameOps(id, raw, fence), importer, true), FrameOps(id, raw, fence);
            && !Failed(l')
            && (l'.chain, imports + ImportCount(l, ops, importer)) == ServeFrame((l.chain, imports), id, ByIdOnly(importer))
  {
    var setBuffer := SetBuffer(Some(Buffer(Some(id), raw)), fence);
    TwoOps(l, setBuffer, ImportOp, importer);
    assert importer(Buffer(Some(id), raw)) == importer(Buffer(Some(id), 0));
  }

  /** The layer after `k` frames of the stream, with the imports done so far. */
  function Played(l: Layer, ids: seq<BufferId>, k: nat, raw: nat -> nat, fence: nat -> int, importer: Buffer -> Import): (Layer, nat)
    requires ids != []
  {
    var ops := StreamOps(ids, k, raw, fence);
    (Steps(l, ops, importer, true), ImportCount(l, ops, importer))
  }

  lemma PlayedNext(l: Layer, ids: seq<BufferId>, k: nat, raw: nat -> nat, fence: nat -> int, importer: Buffer -> Import)
    requires ids != [] && ById(importer) && AlwaysImports(importer)
    requires !Failed(Played(l, ids, k, raw, fence, importer).0)
    ensures var (l1, n1), (l2, n2) := Played(l, ids, k, raw, fence, importer), Played(l, ids, k + 1, raw, fence, importer);
            !Failed(l2) && (l2.chain, n2) == ServeFrame((l1.chain, n1), ids[Turn(k, |ids|)], ByIdOnly(importer))
  {
    var id := ids[Turn(k, |ids|)];
    var (l1, n1) := Played(l, ids, k, raw, fence, importer);
    RunConcat(l, StreamOps(ids, k, raw, fence), FrameOps(id, raw(k), fence(k)), importer);
    LayerServesFrame(l1, id, raw(k), fence(k), n1, importer);
  }

  lemma {:induction false} NeverFails(l: Layer, ids: seq<BufferId>, k: nat, raw: nat -> nat, fence: nat -> int, importer: Buffer -> Import)
    requires ids != [] && ById(importer) && AlwaysImports(importer) && !Failed(l)
    ensures !Failed(Played(l, ids, k, raw, fence, importer).0)
  {
    if k > 0 {
      NeverFails(l, ids, k - 1, raw, fence, importer);
      PlayedNext(l, ids, k - 1, raw, fence, importer);
    }
  }

  /** The caches and counts of a layer that plays the stream form a run of the cache. */
  lemma LayerPlays(l: Layer, ids: seq<BufferId>, k: nat, raw: nat -> nat, fence: nat -> int, importer: Buffer -> Import)
    returns (run: seq<(Chain, nat)>)
    requires ids != [] && ById(importer) && AlwaysImports(importer) && !Failed(l)
    ensures |run| == k + 1 && run[0] == (l.chain, 0)
    ensures forall j {:trigger FrameServed(run, j, ids, ByIdOnly(importer))} :: 0 <= j < k ==> FrameServed(run, j, ids, ByIdOnly(importer))
    ensures forall j :: 0 <= j <= k ==> run[j].1 == ImportCount(l, StreamOps(ids, j, raw, fence), importer)
  {
    run := seq(k + 1, j requires 0 <= j <= k =>
      var (l', n) := Played(l, ids, j, raw, fence, importer); (l'.chain, n));
    forall j | 0 <= j < k
      ensures FrameServed(run, j, ids, ByIdOnly(importer))
    {
      NeverFails(l, ids, j, raw, fence, importer);
      PlayedNext(l, ids, j, raw, fence, importer);
    }
  }

  /**
   A layer whose buffers cycle through two or more ids, all importable, reaches the
   importer exactly twice per buffer and never again.
   */
  lemma LayerImportsOfCycle(ids: seq<BufferId>, k: nat, raw: nat -> nat, fence: nat -> int, importer: Buffer -> Import)
    requires |ids| >= 2 && AllDifferent(ids) && ById(importer) && AlwaysImports(importer)
    ensures ImportCount(NEW_LAYER, StreamOps(ids, k, raw, fence), importer) == if k < 2 * |ids| then k else 2 * |ids|
  {
    var run := LayerPlays(NEW_LAYER, ids, k, raw, fence, importer);
    ImportsOfCycle(run, ids, k, ByIdOnly(importer));
  }

  /** The buffers of the first `k` frames. */
  function Met(ids: seq<BufferId>, k: nat): (met: seq<BufferId>)
    requires ids != []
    ensures |met| == k && forall j :: 0 <= j < k ==> met[j] == ids[Turn(j, |ids|)]
  {
    seq<BufferId>(k, j requires 0 <= j < k => ids[Turn(j, |ids|)])
  }

  lemma MetCycles(ids: seq<BufferId>, k: nat)
    requires 2 <= |ids| <= k && AllDifferent(ids)
    ensures Cyclic(Met(ids, k), |ids|)
  {
    var met, n := Met(ids, k), |ids|;
    assert met[..n] == ids;
    forall j | n <= j < |met|
      ensures Repeats(met, n, j)
    {
    }
  }

  /**
   Whatever a layer has shown before: once its buffers cycle through two or more ids, all
   importable, it reaches the importer at most 4n + 1 times, and never after frame 4n.
   */
  lemma LayerImportsEnd(l: Layer, ids: seq<BufferId>, k: nat, raw: nat -> nat, fence: nat -> int, importer: Buffer -> Import)
    requires |ids| >= 2 && AllDifferent(ids) && ById(importer) && AlwaysImports(importer)
    requires !Failed(l) && Kept(l.chain) && Numbered(l.chain.table) && 4 * |ids| + 1 <= k
    ensures ImportCount(l, StreamOps(ids, k, raw, fence), importer)
         == ImportCount(l, StreamOps(ids, 4 * |ids| + 1, raw, fence), importer) <= 4 * |ids| + 1
  {
    var run := LayerPlays(l, ids, k, raw, fence, importer);
    var met := Met(ids, k);
    MetCycles(ids, k);
    forall j | 0 <= j < |met|
      ensures Served(run, met, j, ByIdOnly(importer))
    {
      assert FrameServed(run, j, ids, ByIdOnly(importer));
    }
    ImportsEnd(run, met, |ids|, k, ByIdOnly(importer));
  }

  lemma ImportKept(l: Layer, importer: Buffer -> Import)
    requires Kept(l.chain)
    ensures Kept(ImportFb(l, importer).chain)
  {
  }

  /** Over every run and for any importer, what is remembered is complete, as `LayerImportsEnd` asks. */
  lemma {:induction false} RunKept(l: Layer, ops: seq<Op>, importer: Buffer -> Import)
    requires Kept(l.chain)
    ensures Kept(Steps(l, ops, importer, true).chain)
    decreases |ops|
  {
    if ops != [] {
      ImportKept(l, importer);
      RunKept(Step(l, ops[0], importer, true), ops[1..], importer);
    }
  }

  /** A layer that keeps presenting one buffer reaches the importer with every frame. */
  lemma LayerSingleBufferNeverCached(id: BufferId, k: nat, raw: nat -> nat, fence: nat -> int, importer: Buffer -> Import)
    requires ById(importer) && AlwaysImports(importer)
    ensures ImportCount(NEW_LAYER, StreamOps([id], k, raw, fence), importer) == k
  {
    var run := LayerPlays(NEW_LAYER, [id], k, raw, fence, importer);
    SingleBufferNeverCached(run, id, k, ByIdOnly(importer));
  }

  // ------------------------------------------------------------------------ the object

  /** The fields of a layer that hold its buffer and the swap-chain cache. */
  class LayerBuffers {
    var buffer: Option<Buffer>
    var acquireFence: int
    var bufferUpdated: bool
    var layerData: Import
    var biGetFailed: bool
    var fbImportFailed: bool
    var swchainLookupTable: map<BufferId, nat>
    var swchainCache: map<nat, Import>
    var swchainReassembled: bool

    function View(): Layer
      reads this
    {
      Layer(buffer, acquireFence, bufferUpdated, layerData, biGetFailed, fbImportFailed,
            Chain(swchainLookupTable, swchainCache, swchainReassembled))
    }

    constructor ()
      ensures View() == NEW_LAYER
    {
      buffer, acquireFence, bufferUpdated, layerData := None, -1, false, Import(None, None);
      biGetFailed, fbImportFailed := false, false;
      swchainLookupTable, swchainCache, swchainReassembled := map[], map[], false;
    }

    method SetLayerBuffer(b: Option<Buffer>, fence: int)
      modifies this
      ensures View() == old(View()).(buffer := b, acquireFence := fence, updated := true)
    {
      acquireFence := fence;
      buffer, bufferUpdated := b, true;
    }

    method SwChainClearCache()
      modifies this
      ensures View() == old(View()).(chain := CLEARED)
    {
      swchainCache, swchainLookupTable, swchainReassembled := map[], map[], false;
    }

    method SwChainGetBufferFromCache(id: BufferId) returns (hit: bool)
      modifies this`layerData
      ensures var found := Lookup(old(View()).chain, id);
              hit == found.Some? && View() == if hit then old(View()).(data := found.value) else old(View())
    {
      if id !in swchainLookupTable {
        return false;
      }
      var seqNo := swchainLookupTable[id];
      if seqNo !in swchainCache {
        return false;
      }
      if swchainCache[seqNo].bi.None? {
        return false;
      }
      layerData := swchainCache[seqNo];
      return true;
    }

    method SwChainReassemble(id: BufferId)
      modifies this
      ensures View() == old(View()).(chain := Reassemble(old(View()).chain, id))
    {
      if id in swchainLookupTable {
        if swchainLookupTable[id] == |swchainLookupTable| - 1 {
          return;
        }
        if swchainLookupTable[id] == 0 {
          swchainReassembled := true;
          return;
        }
        SwChainClearCache();
        return;
      }
      swchainLookupTable := swchainLookupTable[id := |swchainLookupTable|];
    }

    method SwChainAddCurrentBuffer(id: BufferId)
      modifies this
      ensures View() == old(View()).(chain := AddCurrent(old(View()).chain, id, old(layerData)))
    {
      if !swchainReassembled {
        SwChainReassemble(id);
      }
      if swchainReassembled {
        if id !in swchainLookupTable {
          SwChainClearCache();
          return;
        }
        swchainCache := swchainCache[swchainLookupTable[id] := layerData];
      }
    }

    method ImportFramebuffer(importer: Buffer -> Import)
      modifies this
      ensures View() == ImportFb(old(View()), importer)
    {
      if biGetFailed || fbImportFailed || buffer.None? || !bufferUpdated {
        return;
      }
      bufferUpdated := false;
      layerData := layerData.(fb := None);
      var id := buffer.value.uniqueId;
      if id.Some? {
        var hit := SwChainGetBufferFromCache(id.value);
        if hit {
          return;
        }
      }
      var imported := importer(buffer.value);
      layerData := layerData.(bi := imported.bi);
      if imported.bi.None? {
        biGetFailed := true;
        return;
      }
      layerData := imported;
      if imported.fb.None? {
        fbImportFailed := true;
        return;
      }
      if id.Some? {
        SwChainAddCurrentBuffer(id.value);
      }
    }
  }
}
