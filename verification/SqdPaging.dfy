/**
 * The adaptive paging loop of the SQD provider (src/providers/sqd.ts): windows of blocks are
 * requested from a worker, a retriable failure halves the window, and the swaps of each page are
 * collected up to an optional cap. The worker is any function of the request number and the window.
 */
module SqdPaging {
  import opened Common
  import opened AbiWords

  datatype Log = Log(data: Option<string>, transactionHash: string)

  datatype Block = Block(number: Option<int>, timestamp: Option<int>, logs: seq<Log>)

  datatype Swap = Swap(blockNumber: int, blockTimestamp: int, txHash: string, fields: SwapFields)

  /** What one window comes back with; a body that is not an array is an empty page. */
  datatype Response = Failed(retriable: bool) | Page(blocks: seq<Block>)

  type Worker = (nat, int, int) -> Response

  const MIN_BLOCK_SPAN := 128

  /** fromBlock and lastBlock are the clamped bounds; spans and cap are the configured ones, floored: a cap below one becomes 0. */
  datatype Query = Query(fromBlock: int, lastBlock: int, requestedSpan: int, configuredMinimum: int, cap: Option<nat>) {
    function Minimum(): int { if configuredMinimum < 1 then 1 else configuredMinimum }

    function InitialSpan(): int {
      var adaptive := if requestedSpan < MIN_BLOCK_SPAN then MIN_BLOCK_SPAN else requestedSpan;
      var blocks := if lastBlock - fromBlock + 1 < 1 then 1 else lastBlock - fromBlock + 1;
      if adaptive < blocks then adaptive else blocks
    }
  }

  /**
   * The first window spans the requested blocks, 128 at least, and never more than there are; no window is
   * halved below the configured minimum, or one.
   */
  lemma SpansAre(q: Query)
    requires q.fromBlock <= q.lastBlock
    ensures var blocks, span := q.lastBlock - q.fromBlock + 1, q.InitialSpan();
            && 1 <= span <= blocks
            && (span < blocks ==> span == q.requestedSpan >= 128 || (span == 128 && q.requestedSpan < 128))
            && (span == blocks ==> blocks <= 128 || blocks <= q.requestedSpan)
    ensures 1 <= q.Minimum() && (q.Minimum() == q.configuredMinimum || (q.Minimum() == 1 && q.configuredMinimum < 1))
  {
  }

  // ---------------------------------------------------------------- reading a page

  datatype Entry = Skipped | Found(swap: Swap) | Throws

  function Read(block: Block, log: Log): Entry {
    if block.number.None? || block.timestamp.None? || log.data.None? then Skipped
    else
      match DecodeSwap(log.data.value)
      case Short => Skipped
      case Malformed => Throws
      case Fields(fields) =>
        if log.transactionHash == "" then Skipped
        else Found(Swap(block.number.value, block.timestamp.value, log.transactionHash, fields))
  }

  /** The log is of a numbered and dated block and has data. */
  predicate Readable(block: Block, log: Log) {
    block.number.Some? && block.timestamp.Some? && log.data.Some?
  }

  /** The swap a log stands for: its block's number and time, its own hash, and the fields its data spell. */
  predicate Yields(block: Block, log: Log, swap: Swap) {
    && Readable(block, log) && log.transactionHash != ""
    && swap.blockNumber == block.number.value && swap.blockTimestamp == block.timestamp.value
    && swap.txHash == log.transactionHash && DecodeSwap(log.data.value) == Fields(swap.fields)
  }

  /** Reading throws: the data of a readable log are five words that are not numbers. */
  predicate Malforms(block: Block, log: Log) {
    Readable(block, log) && DecodeSwap(log.data.value) == Malformed
  }

  /** A log is read as the one swap it stands for, or throws, exactly when it should; every other log is passed over. */
  lemma ReadIs(block: Block, log: Log, swap: Swap)
    ensures Read(block, log) == Found(swap) <==> Yields(block, log, swap)
    ensures Read(block, log) == Throws <==> Malforms(block, log)
  {
    hide DecodeSwap;
  }

  /** Swaps in order up to the first log whose decoding throws, and whether one does. */
  datatype Harvest = Harvest(swaps: seq<Swap>, threw: bool)

  function Harvested(h: Harvest, block: Block, logs: seq<Log>): Harvest {
    if logs == [] then h
    else
      var before := Harvested(h, block, logs[..|logs| - 1]);
      if before.threw then before
      else
        match Read(block, logs[|logs| - 1])
        case Skipped => before
        case Throws => before.(threw := true)
        case Found(swap) => before.(swaps := before.swaps + [swap])
  }

  function HarvestPage(blocks: seq<Block>): Harvest {
    if blocks == [] then Harvest([], false)
    else
      var last := blocks[|blocks| - 1];
      Harvested(HarvestPage(blocks[..|blocks| - 1]), last, last.logs)
  }

  /** The number of the last block that has one. */
  function Reached(blocks: seq<Block>): Option<int> {
    if blocks == [] then None
    else if blocks[|blocks| - 1].number.Some? then blocks[|blocks| - 1].number
    else Reached(blocks[..|blocks| - 1])
  }

  /** That is: every later block has none. */
  lemma {:induction false} ReachedIsLast(blocks: seq<Block>) returns (at: nat)
    ensures Reached(blocks).Some? ==> at < |blocks| && blocks[at].number == Reached(blocks)
    ensures forall i :: (if Reached(blocks).Some? then at < i else 0 <= i) && i < |blocks| ==> blocks[i].number.None?
  {
    if blocks == [] {
      at := 0;
    } else if blocks[|blocks| - 1].number.Some? {
      at := |blocks| - 1;
    } else {
      var shorter := blocks[..|blocks| - 1];
      at := ReachedIsLast(shorter);
      assert forall i :: 0 <= i < |shorter| ==> shorter[i] == blocks[i];
    }
  }

  /** Every harvested swap is what some log of the page decodes to. */
  ghost predicate FromPage(blocks: seq<Block>, swap: Swap) {
    exists b, log :: b in blocks && log in b.logs && Yields(b, log, swap)
  }

  lemma {:induction false} HarvestedFrom(h: Harvest, block: Block, logs: seq<Log>, swap: Swap)
    requires swap in Harvested(h, block, logs).swaps
    ensures swap in h.swaps || exists log :: log in logs && Read(block, log) == Found(swap)
  {
    if logs != [] {
      var shorter, last := logs[..|logs| - 1], logs[|logs| - 1];
      assert last in logs;
      hide Read;
      if swap in Harvested(h, block, shorter).swaps {
        HarvestedFrom(h, block, shorter, swap);
      }
    }
  }

  lemma {:induction false} HarvestIsFromPage(blocks: seq<Block>, swap: Swap)
    requires swap in HarvestPage(blocks).swaps
    ensures FromPage(blocks, swap)
  {
    hide Read, Harvested, Yields;
    var shorter, last := blocks[..|blocks| - 1], blocks[|blocks| - 1];
    HarvestedFrom(HarvestPage(shorter), last, last.logs, swap);
    if swap in HarvestPage(shorter).swaps {
      HarvestIsFromPage(shorter, swap);
      var b, log :| b in shorter && log in b.logs && Yields(b, log, swap);
      assert b in blocks;
    } else {
      var log :| log in last.logs && Read(last, log) == Found(swap);
      ReadIs(last, log, swap);
      assert last in blocks;
    }
  }

  // ---------------------------------------------------------------- one turn of the loop

  /** An accepted window: what was asked for and the block the worker got to. */
  datatype Accepted = Accepted(from: int, to: int, reached: int)

  datatype Pager = Pager(
    nextBlock: int, blockSpan: int, results: seq<Swap>, requests: nat, shrinks: nat, accepted: seq<Accepted>)

  datatype Turn = Again(pager: Pager) | Stop(result: Option<seq<Swap>>)

  function Start(q: Query): Pager { Pager(q.fromBlock, q.InitialSpan(), [], 0, 0, []) }

  function WindowEnd(q: Query, p: Pager): int {
    if p.nextBlock + p.blockSpan - 1 < q.lastBlock then p.nextBlock + p.blockSpan - 1 else q.lastBlock
  }

  /** A window starts at the next block and is as long as the span, or ends with the last block before that. */
  lemma WindowIs(q: Query, p: Pager)
    requires p.nextBlock <= q.lastBlock && p.blockSpan > 0
    ensures var end := WindowEnd(q, p);
            && p.nextBlock <= end <= q.lastBlock && end < p.nextBlock + p.blockSpan
            && (end == q.lastBlock || end + 1 == p.nextBlock + p.blockSpan)
  {
  }

  predicate CapReached(q: Query, results: seq<Swap>) {
    q.cap.Some? && |results| >= q.cap.value
  }

  function AfterFailure(q: Query, p: Pager, retriable: bool): Turn {
    if retriable && p.blockSpan > q.Minimum() then
      var half := p.blockSpan / 2;
      Again(p.(blockSpan := if half < q.Minimum() then q.Minimum() else half,
               requests := p.requests + 1, shrinks := p.shrinks + 1))
    else Stop(None)
  }

  /** The first block throws before any of its swaps: all a fetch capped at 0 gets to see of a page. */
  predicate FirstThrows(blocks: seq<Block>) {
    blocks != [] && Harvested(Harvest([], false), blocks[0], blocks[0].logs) == Harvest([], true)
  }

  function AfterPage(q: Query, p: Pager, blocks: seq<Block>): Turn {
    var harvest, reached := HarvestPage(blocks), Reached(blocks);
    var results := p.results + harvest.swaps;
    if blocks == [] then Stop(Some(p.results))
    else if q.cap == Some(0) && FirstThrows(blocks) then Stop(None)
    else if CapReached(q, results) then Stop(Some(results[..q.cap.value]))
    else if harvest.threw then Stop(None)
    else if reached.None? || reached.value < p.nextBlock then Stop(Some(results))
    else
      Again(p.(nextBlock := reached.value + 1, results := results, requests := p.requests + 1,
               accepted := p.accepted + [Accepted(p.nextBlock, WindowEnd(q, p), reached.value)]))
  }

  function TakeTurn(q: Query, worker: Worker, p: Pager): Turn {
    match worker(p.requests, p.nextBlock, WindowEnd(q, p))
    case Failed(retriable) => AfterFailure(q, p, retriable)
    case Page(blocks) => AfterPage(q, p, blocks)
  }

  function Left(q: Query, p: Pager): nat {
    if p.nextBlock > q.lastBlock then 0 else q.lastBlock - p.nextBlock + 1
  }

  lemma TurnDescends(q: Query, worker: Worker, p: Pager)
    requires p.nextBlock <= q.lastBlock && TakeTurn(q, worker, p).Again?
    ensures var r := TakeTurn(q, worker, p).pager;
            && (Left(q, r) < Left(q, p) || (Left(q, r) == Left(q, p) && 0 < r.blockSpan < p.blockSpan))
            && r.blockSpan <= p.blockSpan && r.requests == p.requests + 1
  {
    hide HarvestPage, Reached, WindowEnd;
  }

  /** The whole fetch from a pager on: its result, and the pager the loop head saw last. */
  datatype Fetch = Fetch(result: Option<seq<Swap>>, final: Pager)

  function Fetched(q: Query, worker: Worker, p: Pager): Fetch
    decreases Left(q, p), p.blockSpan
  {
    if p.nextBlock > q.lastBlock then Fetch(Some(p.results), p)
    else
      match TakeTurn(q, worker, p)
      case Stop(result) => Fetch(result, p)
      case Again(r) =>
        TurnDescends(q, worker, p);
        Fetched(q, worker, r)
  }

  // ---------------------------------------------------------------- windows tile, spans shrink

  function Power2(n: nat): int {
    if n == 0 then 1 else 2 * Power2(n - 1)
  }

  /** Consecutive accepted windows abut, from fromBlock to just below nextBlock. */
  predicate Tile(accepted: seq<Accepted>, from: int, next: int) {
    if accepted == [] then next == from
    else
      var last := accepted[|accepted| - 1];
      && last.from <= last.reached && next == last.reached + 1
      && Tile(accepted[..|accepted| - 1], from, last.from)
  }

  /** After k halvings the span is the minimum or at most the initial span over 2^k; the last one found it above the minimum. */
  ghost predicate Halved(q: Query, p: Pager) {
    && (p.shrinks == 0 ==> p.blockSpan == q.InitialSpan())
    && (p.blockSpan == q.Minimum() || Power2(p.shrinks) * p.blockSpan <= q.InitialSpan())
    && (p.shrinks > 0 ==> Power2(p.shrinks - 1) * q.Minimum() < q.InitialSpan())
  }

  ghost predicate Sound(q: Query, p: Pager) {
    && Tile(p.accepted, q.fromBlock, p.nextBlock)
    && 0 < p.blockSpan <= q.InitialSpan()
    && Halved(q, p)
    && (q.cap != Some(0) ==> !CapReached(q, p.results))
    && p.requests == |p.accepted| + p.shrinks
    && (forall i :: 0 <= i < |p.accepted| ==>
          p.accepted[i].to <= q.lastBlock && p.accepted[i].to - p.accepted[i].from < q.InitialSpan())
  }

  lemma {:induction false} Power2IsPositive(n: nat)
    ensures Power2(n) >= 1
  {
    if n > 0 { Power2IsPositive(n - 1); }
  }

  lemma FailureKeepsSound(q: Query, p: Pager, retriable: bool)
    requires Sound(q, p) && AfterFailure(q, p, retriable).Again?
    ensures Sound(q, AfterFailure(q, p, retriable).pager)
  {
    hide Tile, CapReached;
    var r := AfterFailure(q, p, retriable).pager;
    assert r.results == p.results && r.accepted == p.accepted && r.nextBlock == p.nextBlock;
    assert Halved(q, r) by {
      Power2IsPositive(p.shrinks);
      HalvingKeepsProduct(Power2(p.shrinks), p.blockSpan, q.Minimum(), q.InitialSpan());
      assert Power2(r.shrinks) == 2 * Power2(p.shrinks);
    }
  }

  lemma HalvingKeepsProduct(k: int, span: int, minimum: int, initial: int)
    requires k >= 1 && span > minimum >= 1 && k * span <= initial
    ensures 2 * k * (span / 2) <= initial && k * minimum < initial
  {
    var half := span / 2;
    Monotone(k, 2 * half, span);
    Monotone(k, minimum + 1, span);
    assert k * (2 * half) == 2 * k * half;
    assert k * (minimum + 1) == k * minimum + k;
  }

  lemma Monotone(k: int, a: int, b: int)
    requires k >= 0 && a <= b
    ensures k * a <= k * b
  {
  }

  lemma PageKeepsSound(q: Query, p: Pager, blocks: seq<Block>)
    requires Sound(q, p) && p.nextBlock <= q.lastBlock && AfterPage(q, p, blocks).Again?
    ensures Sound(q, AfterPage(q, p, blocks).pager)
  {
    hide HarvestPage, Reached, Power2;
    var r := AfterPage(q, p, blocks).pager;
    assert r.accepted[..|r.accepted| - 1] == p.accepted;
    assert Tile(r.accepted, q.fromBlock, r.nextBlock);
    assert Halved(q, r);
  }

  lemma StartIsSound(q: Query)
    ensures Sound(q, Start(q))
  {
    assert Power2(0) == 1;
  }

  /** Whatever the worker answers: windows tile, spans only shrink, and shrinks are logarithmic. */
  lemma {:induction false} FetchIsSound(q: Query, worker: Worker, p: Pager)
    requires Sound(q, p)
    ensures Sound(q, Fetched(q, worker, p).final)
    decreases Left(q, p), p.blockSpan
  {
    hide Sound, AfterFailure, AfterPage, WindowEnd;
    if p.nextBlock <= q.lastBlock && TakeTurn(q, worker, p).Again? {
      match worker(p.requests, p.nextBlock, WindowEnd(q, p)) {
        case Failed(retriable) => FailureKeepsSound(q, p, retriable);
        case Page(blocks) => PageKeepsSound(q, p, blocks);
      }
      TurnDescends(q, worker, p);
      FetchIsSound(q, worker, TakeTurn(q, worker, p).pager);
    }
  }

  lemma {:induction false} TileLength(accepted: seq<Accepted>, from: int, next: int)
    requires Tile(accepted, from, next)
    ensures |accepted| <= next - from
  {
    if accepted != [] {
      TileLength(accepted[..|accepted| - 1], from, accepted[|accepted| - 1].from);
    }
  }

  /** The number of windows a block falls into. */
  function Hits(accepted: seq<Accepted>, block: int): nat {
    if accepted == [] then 0
    else
      var last := accepted[|accepted| - 1];
      Hits(accepted[..|accepted| - 1], block) + (if last.from <= block <= last.reached then 1 else 0)
  }

  /** Every block from the first to just below nextBlock falls into one accepted window, every other block into none. */
  lemma {:induction false} TilesCoverOnce(accepted: seq<Accepted>, from: int, next: int, block: int)
    requires Tile(accepted, from, next)
    ensures from <= next
    ensures Hits(accepted, block) == if from <= block < next then 1 else 0
  {
    if accepted != [] {
      TilesCoverOnce(accepted[..|accepted| - 1], from, accepted[|accepted| - 1].from, block);
    }
  }

  /** The requests of a whole fetch: one a turn, the turn that stopped it included. */
  function Requests(q: Query, f: Fetch): nat {
    f.final.requests + (if f.final.nextBlock <= q.lastBlock then 1 else 0)
  }

  /** The accepted windows of a whole fetch, the requests it made and the halvings among them. */
  lemma FetchBounds(q: Query, worker: Worker, block: int)
    ensures var whole := Fetched(q, worker, Start(q));
            var f := whole.final;
            && Hits(f.accepted, block) == (if q.fromBlock <= block < f.nextBlock then 1 else 0)
            && Requests(q, whole) == |f.accepted| + f.shrinks + (if f.nextBlock <= q.lastBlock then 1 else 0)
            && |f.accepted| <= f.nextBlock - q.fromBlock
            && (f.shrinks > 0 ==> Power2(f.shrinks - 1) * q.Minimum() < q.InitialSpan())
  {
    StartIsSound(q);
    FetchIsSound(q, worker, Start(q));
    var f := Fetched(q, worker, Start(q)).final;
    TilesCoverOnce(f.accepted, q.fromBlock, f.nextBlock, block);
    TileLength(f.accepted, q.fromBlock, f.nextBlock);
    hide Tile, Hits, Fetched, Power2;
  }

  /** A worker whose last block stays inside the window it was asked for. */
  ghost predicate StaysInside(worker: Worker) {
    forall n, from, to :: worker(n, from, to).Page? ==>
      Reached(worker(n, from, to).blocks).None? || Reached(worker(n, from, to).blocks).value <= to
  }

  ghost predicate InsideWindows(q: Query, p: Pager) {
    && (p.nextBlock <= q.lastBlock + 1 || p.accepted == [])
    && forall i :: 0 <= i < |p.accepted| ==> p.accepted[i].reached <= p.accepted[i].to
  }

  /** Then no accepted window claims a block beyond what was requested. */
  lemma {:induction false} StaysInsideWindows(q: Query, worker: Worker, p: Pager)
    requires StaysInside(worker) && InsideWindows(q, p)
    ensures InsideWindows(q, Fetched(q, worker, p).final)
    decreases Left(q, p), p.blockSpan
  {
    if p.nextBlock <= q.lastBlock && TakeTurn(q, worker, p).Again? {
      TurnDescends(q, worker, p);
      hide HarvestPage, Reached, Left;
      var r := TakeTurn(q, worker, p).pager;
      assert InsideWindows(q, r);
      StaysInsideWindows(q, worker, r);
    }
  }

  // ---------------------------------------------------------------- following a chain

  /** What each block number holds. */
  type Chain = int -> Block

  ghost predicate Numbered(chain: Chain) { forall n :: chain(n).number == Some(n) }

  /** The swaps some logs of a block stand for, after those already collected, up to the first that throws. */
  ghost function Collected(h: Harvest, block: Block, logs: seq<Log>): Harvest {
    if logs == [] then h
    else
      var before, log := Collected(h, block, logs[..|logs| - 1]), logs[|logs| - 1];
      if before.threw then before
      else if Malforms(block, log) then Harvest(before.swaps, true)
      else if swap :| Yields(block, log, swap) then Harvest(before.swaps + [swap], false)
      else before
  }

  lemma {:induction false} HarvestedIsCollected(h: Harvest, block: Block, logs: seq<Log>)
    ensures Harvested(h, block, logs) == Collected(h, block, logs)
  {
    if logs != [] {
      hide Read, Yields, Malforms;
      var log := logs[|logs| - 1];
      HarvestedIsCollected(h, block, logs[..|logs| - 1]);
      forall swap
        ensures Read(block, log) == Found(swap) <==> Yields(block, log, swap)
        ensures Read(block, log) == Throws <==> Malforms(block, log)
      {
        ReadIs(block, log, swap);
      }
    }
  }

  /** The swaps of the chain's blocks from `from` to just below `next`, up to the first log that throws. */
  ghost function ChainSwaps(chain: Chain, from: int, next: int): Harvest
    decreases next - from
  {
    if next <= from then Harvest([], false)
    else Collected(ChainSwaps(chain, from, next - 1), chain(next - 1), chain(next - 1).logs)
  }

  /** A page of the chain: blocks of the window in ascending order, leaving out only blocks without logs. */
  ghost predicate Faithful(chain: Chain, from: int, to: int, blocks: seq<Block>) {
    && (forall i :: 0 <= i < |blocks| ==>
          blocks[i].number.Some? && from <= blocks[i].number.value <= to && blocks[i] == chain(blocks[i].number.value))
    && (forall i, j :: 0 <= i < j < |blocks| ==> blocks[i].number.value < blocks[j].number.value)
    && (blocks != [] ==> forall n :: from <= n <= blocks[|blocks| - 1].number.value && chain(n).logs != [] ==>
          chain(n) in blocks)
  }

  /** A worker that may fail, and may stop short of the window's end, but never makes blocks up or skips logs. */
  ghost predicate Honest(worker: Worker, chain: Chain) {
    forall n, from, to :: worker(n, from, to).Page? ==> Faithful(chain, from, to, worker(n, from, to).blocks)
  }

  lemma NoLogsAddNothing(h: Harvest, block: Block)
    ensures Collected(h, block, []) == h
  {
  }

  lemma {:induction false} QuietAddsNothing(chain: Chain, from: int, mid: int, next: int)
    requires from <= mid <= next && forall n :: mid <= n < next ==> chain(n).logs == []
    ensures ChainSwaps(chain, from, next) == ChainSwaps(chain, from, mid)
    decreases next - mid
  {
    hide Collected;
    if mid < next {
      QuietAddsNothing(chain, from, mid, next - 1);
      NoLogsAddNothing(ChainSwaps(chain, from, next - 1), chain(next - 1));
    }
  }

  lemma {:induction false} HarvestedShifts(before: seq<Swap>, h: Harvest, block: Block, logs: seq<Log>)
    ensures var r := Harvested(h, block, logs);
            Harvested(Harvest(before + h.swaps, h.threw), block, logs) == Harvest(before + r.swaps, r.threw)
  {
    if logs != [] {
      hide Read;
      HarvestedShifts(before, h, block, logs[..|logs| - 1]);
    }
  }

  lemma {:induction false} ChainSplits(chain: Chain, from: int, mid: int, next: int)
    requires from <= mid <= next && !ChainSwaps(chain, from, mid).threw
    ensures var first, rest := ChainSwaps(chain, from, mid), ChainSwaps(chain, mid, next);
            ChainSwaps(chain, from, next) == Harvest(first.swaps + rest.swaps, rest.threw)
    decreases next - mid
  {
    if mid < next {
      hide Harvested, Collected;
      ChainSplits(chain, from, mid, next - 1);
      var b, first, rest := chain(next - 1), ChainSwaps(chain, from, mid), ChainSwaps(chain, mid, next - 1);
      HarvestedShifts(first.swaps, rest, b, b.logs);
      HarvestedIsCollected(rest, b, b.logs);
      HarvestedIsCollected(Harvest(first.swaps + rest.swaps, rest.threw), b, b.logs);
    }
  }

  lemma FaithfulPrefix(chain: Chain, from: int, to: int, blocks: seq<Block>)
    requires Numbered(chain) && Faithful(chain, from, to, blocks) && |blocks| > 1
    ensures Faithful(chain, from, to, blocks[..|blocks| - 1])
    ensures forall n :: blocks[|blocks| - 2].number.value < n < blocks[|blocks| - 1].number.value ==> chain(n).logs == []
  {
    var k := |blocks| - 1;
    forall n | from <= n < blocks[k].number.value && chain(n).logs != []
      ensures chain(n) in blocks[..k] && n <= blocks[k - 1].number.value
    {
      var i :| 0 <= i < |blocks| && blocks[i] == chain(n);
      assert chain(n).number == Some(n);
      assert blocks[..k][i] == chain(n);
    }
  }

  lemma PageSnoc(blocks: seq<Block>)
    requires blocks != []
    ensures var k := |blocks| - 1;
            && HarvestPage(blocks) == Harvested(HarvestPage(blocks[..k]), blocks[k], blocks[k].logs)
            && (k == 0 ==> HarvestPage(blocks[..k]) == Harvest([], false))
            && (blocks[k].number.Some? ==> Reached(blocks) == blocks[k].number)
  {
    hide Harvested;
  }

  lemma ChainNext(chain: Chain, from: int, next: int)
    requires from <= next
    ensures ChainSwaps(chain, from, from) == Harvest([], false)
    ensures ChainSwaps(chain, from, next + 1) == Harvested(ChainSwaps(chain, from, next), chain(next), chain(next).logs)
  {
    hide Harvested, Collected;
    HarvestedIsCollected(ChainSwaps(chain, from, next), chain(next), chain(next).logs);
  }

  lemma FirstIsPreceded(chain: Chain, from: int, to: int, blocks: seq<Block>)
    requires Numbered(chain) && Faithful(chain, from, to, blocks) && |blocks| == 1
    ensures forall n :: from <= n < blocks[0].number.value ==> chain(n).logs == []
  {
    forall n | from <= n < blocks[0].number.value
      ensures chain(n).logs == []
    {
      assert chain(n).number == Some(n);
    }
  }

  lemma LastIsOfChain(chain: Chain, from: int, to: int, blocks: seq<Block>)
    requires Faithful(chain, from, to, blocks) && blocks != []
    ensures blocks[|blocks| - 1].number.Some?
    ensures var n := blocks[|blocks| - 1].number.value; from <= n <= to && blocks[|blocks| - 1] == chain(n)
    ensures |blocks| > 1 ==> blocks[|blocks| - 2].number.Some?
    ensures |blocks| > 1 ==> from <= blocks[|blocks| - 2].number.value < blocks[|blocks| - 1].number.value
  {
  }

  /** A faithful page harvests to the chain's swaps up to the block it reached. */
  lemma {:induction false} PageIsChain(chain: Chain, from: int, to: int, blocks: seq<Block>)
    requires Numbered(chain) && Faithful(chain, from, to, blocks) && blocks != []
    ensures Reached(blocks) == blocks[|blocks| - 1].number
    ensures HarvestPage(blocks) == ChainSwaps(chain, from, blocks[|blocks| - 1].number.value + 1)
    decreases |blocks|
  {
    hide Numbered, Faithful, Harvested, HarvestPage, Reached, ChainSwaps;
    LastIsOfChain(chain, from, to, blocks);
    PageSnoc(blocks);
    var next := blocks[|blocks| - 1].number.value;
    ChainNext(chain, from, next);
    if |blocks| == 1 {
      FirstIsPreceded(chain, from, to, blocks);
      QuietAddsNothing(chain, from, from, next);
    } else {
      var shorter := blocks[..|blocks| - 1];
      FaithfulPrefix(chain, from, to, blocks);
      PageIsChain(chain, from, to, shorter);
      assert shorter[|shorter| - 1] == blocks[|blocks| - 2];
      QuietAddsNothing(chain, from, blocks[|blocks| - 2].number.value + 1, next);
    }
  }

  lemma TurnFollowsChain(q: Query, worker: Worker, chain: Chain, p: Pager)
    requires q.cap.None? && Numbered(chain) && Honest(worker, chain) && q.fromBlock <= p.nextBlock <= q.lastBlock
    requires ChainSwaps(chain, q.fromBlock, p.nextBlock) == Harvest(p.results, false)
    ensures match TakeTurn(q, worker, p)
            case Again(r) => p.nextBlock <= r.nextBlock <= q.lastBlock + 1 &&
                             ChainSwaps(chain, q.fromBlock, r.nextBlock) == Harvest(r.results, false)
            case Stop(result) => result.None? || result == Some(p.results)
  {
    hide ChainSwaps, HarvestPage, Reached, FirstThrows;
    match worker(p.requests, p.nextBlock, WindowEnd(q, p))
    case Failed(retriable) =>
    case Page(blocks) =>
      assert Faithful(chain, p.nextBlock, WindowEnd(q, p), blocks);
      if blocks != [] {
        PageIsChain(chain, p.nextBlock, WindowEnd(q, p), blocks);
        var last := blocks[|blocks| - 1];
        assert p.nextBlock <= last.number.value <= WindowEnd(q, p);
        hide Faithful, Honest, WindowEnd;
        ChainSplits(chain, q.fromBlock, p.nextBlock, last.number.value + 1);
      }
  }

  lemma {:induction false} FetchFollowsChain(q: Query, worker: Worker, chain: Chain, p: Pager)
    requires q.cap.None? && Numbered(chain) && Honest(worker, chain) && q.fromBlock <= p.nextBlock <= q.lastBlock + 1
    requires ChainSwaps(chain, q.fromBlock, p.nextBlock) == Harvest(p.results, false)
    ensures var f := Fetched(q, worker, p);
            && p.nextBlock <= f.final.nextBlock <= q.lastBlock + 1
            && (f.final.nextBlock > q.lastBlock ==> f.result.Some?)
            && (f.result.Some? ==> ChainSwaps(chain, q.fromBlock, f.final.nextBlock) == Harvest(f.result.value, false))
    decreases Left(q, p), p.blockSpan
  {
    hide ChainSwaps, Numbered, Honest, AfterPage, AfterFailure, WindowEnd;
    if p.nextBlock <= q.lastBlock {
      TurnFollowsChain(q, worker, chain, p);
      if TakeTurn(q, worker, p).Again? {
        TurnDescends(q, worker, p);
        FetchFollowsChain(q, worker, chain, TakeTurn(q, worker, p).pager);
      }
    }
  }

  /**
   * Against an honest worker an uncapped fetch that reaches the last block returns exactly the swaps
   * of the requested blocks, in order; one that ends early returns exactly those of the blocks it
   * passed, so it has them all exactly when the blocks left over hold none.
   */
  lemma FetchIsExact(q: Query, worker: Worker, chain: Chain)
    requires q.cap.None? && Numbered(chain) && Honest(worker, chain) && q.fromBlock <= q.lastBlock + 1
    ensures var f := Fetched(q, worker, Start(q));
            var all, next := ChainSwaps(chain, q.fromBlock, q.lastBlock + 1), f.final.nextBlock;
            && (next > q.lastBlock ==> f.result == Some(all.swaps) && !all.threw)
            && (f.result.Some? ==>
                  && f.result.value == ChainSwaps(chain, q.fromBlock, next).swaps <= all.swaps
                  && (f.result.value == all.swaps <==> ChainSwaps(chain, next, q.lastBlock + 1).swaps == []))
  {
    FetchFollowsChain(q, worker, chain, Start(q));
    hide Numbered, Honest, Fetched;
    var f := Fetched(q, worker, Start(q));
    var next := f.final.nextBlock;
    if f.result.Some? {
      ChainSplits(chain, q.fromBlock, next, q.lastBlock + 1);
    }
  }

  // ---------------------------------------------------------------- the cap

  /** Later turns only add swaps. */
  lemma {:induction false} ResultsGrow(q: Query, worker: Worker, p: Pager)
    requires q.cap.None? && Fetched(q, worker, p).result.Some?
    ensures p.results <= Fetched(q, worker, p).result.value
    decreases Left(q, p), p.blockSpan
  {
    hide HarvestPage, Reached, WindowEnd;
    if p.nextBlock <= q.lastBlock && TakeTurn(q, worker, p).Again? {
      TurnDescends(q, worker, p);
      ResultsGrow(q, worker, TakeTurn(q, worker, p).pager);
    }
  }

  function FirstOf(swaps: seq<Swap>, m: nat): seq<Swap> { if |swaps| < m then swaps else swaps[..m] }

  /** A cap below one: never any swap, and no failure the uncapped fetch does not have. */
  lemma {:induction false} ZeroCap(q: Query, worker: Worker, p: Pager)
    requires q.cap.None? && p.results == []
    ensures var whole, capped := Fetched(q, worker, p).result, Fetched(q.(cap := Some(0)), worker, p).result;
            (capped.None? || capped == Some([])) && (whole.Some? ==> capped.Some?)
    decreases Left(q, p), p.blockSpan
  {
    var c := q.(cap := Some(0));
    if p.nextBlock <= q.lastBlock {
      assert c.Minimum() == q.Minimum() && WindowEnd(c, p) == WindowEnd(q, p);
      hide HarvestPage, Harvested, Reached, WindowEnd;
      match worker(p.requests, p.nextBlock, WindowEnd(q, p))
      case Failed(retriable) =>
        assert AfterFailure(c, p, retriable) == AfterFailure(q, p, retriable);
        if AfterFailure(q, p, retriable).Again? {
          TurnDescends(q, worker, p);
          TurnDescends(c, worker, p);
          ZeroCap(q, worker, AfterFailure(q, p, retriable).pager);
        }
      case Page(blocks) =>
        FirstThrowEndsPage(blocks);
    }
  }

  lemma FirstThrowEndsPage(blocks: seq<Block>)
    ensures FirstThrows(blocks) ==> HarvestPage(blocks).threw
  {
    if FirstThrows(blocks) {
      PageGrows(blocks, 1);
      assert blocks[..1][..0] == [] && blocks[..1][0] == blocks[0];
    }
  }

  /** A capped fetch gives the first swaps of the uncapped fetch on the same responses; it may also succeed where that fails later. */
  lemma {:induction false} CapTakesPrefix(q: Query, m: nat, worker: Worker, p: Pager)
    requires q.cap.None? && (|p.results| < m || p.results == [])
    ensures var whole, capped := Fetched(q, worker, p).result, Fetched(q.(cap := Some(m)), worker, p).result;
            && (whole.Some? ==> capped == Some(FirstOf(whole.value, m)))
            && (whole.None? ==> capped.None? || |capped.value| == m)
    decreases Left(q, p), p.blockSpan
  {
    var c := q.(cap := Some(m));
    if m == 0 {
      ZeroCap(q, worker, p);
    } else if p.nextBlock <= q.lastBlock {
      SameTurn(q, m, worker, p);
      hide HarvestPage, Reached, WindowEnd, AfterPage, AfterFailure;
      match TakeTurn(q, worker, p)
      case Stop(_) =>
      case Again(r) =>
        TurnDescends(q, worker, p);
        if |r.results| < m {
          TurnDescends(c, worker, p);
          CapTakesPrefix(q, m, worker, r);
        } else if Fetched(q, worker, r).result.Some? {
          ResultsGrow(q, worker, r);
          assert Fetched(q, worker, r).result.value[..m] == r.results[..m];
        }
    }
  }

  /** Against an honest worker a capped fetch gives the first swaps of the chain where the uncapped one gets to the end. */
  lemma CappedIsExact(q: Query, m: nat, worker: Worker, chain: Chain)
    requires q.cap.None? && Numbered(chain) && Honest(worker, chain) && q.fromBlock <= q.lastBlock + 1
    requires Fetched(q, worker, Start(q)).final.nextBlock > q.lastBlock
    ensures Fetched(q.(cap := Some(m)), worker, Start(q)).result ==
            Some(FirstOf(ChainSwaps(chain, q.fromBlock, q.lastBlock + 1).swaps, m))
  {
    FetchIsExact(q, worker, chain);
    CapTakesPrefix(q, m, worker, Start(q));
    hide Fetched, Honest, Numbered, ChainSwaps;
  }

  lemma SameTurn(q: Query, m: nat, worker: Worker, p: Pager)
    requires q.cap.None? && |p.results| < m && p.nextBlock <= q.lastBlock
    ensures var whole, capped := TakeTurn(q, worker, p), TakeTurn(q.(cap := Some(m)), worker, p);
            match whole
            case Again(r) => capped == if |r.results| < m then whole else Stop(Some(r.results[..m]))
            case Stop(None) => capped == whole || (capped.Stop? && capped.result.Some? && |capped.result.value| == m)
            case Stop(Some(all)) => capped == Stop(Some(FirstOf(all, m)))
  {
    hide HarvestPage, Reached;
    var c := q.(cap := Some(m));
    assert c.Minimum() == q.Minimum() && WindowEnd(c, p) == WindowEnd(q, p);
    match worker(p.requests, p.nextBlock, WindowEnd(q, p))
    case Failed(retriable) => assert AfterFailure(c, p, retriable) == AfterFailure(q, p, retriable);
    case Page(blocks) => SamePage(q, m, p, blocks);
  }

  lemma SamePage(q: Query, m: nat, p: Pager, blocks: seq<Block>)
    requires q.cap.None? && |p.results| < m
    ensures var whole, capped := AfterPage(q, p, blocks), AfterPage(q.(cap := Some(m)), p, blocks);
            match whole
            case Again(r) => capped == if |r.results| < m then whole else Stop(Some(r.results[..m]))
            case Stop(None) => capped == whole || (capped.Stop? && capped.result.Some? && |capped.result.value| == m)
            case Stop(Some(all)) => capped == Stop(Some(FirstOf(all, m)))
  {
    hide HarvestPage, Reached;
    var c := q.(cap := Some(m));
    assert WindowEnd(c, p) == WindowEnd(q, p);
    var results := p.results + HarvestPage(blocks).swaps;
    assert !CapReached(q, results) && (CapReached(c, results) <==> |results| >= m);
  }

  // ---------------------------------------------------------------- the loop

  lemma {:induction false} ThrownStays(h: Harvest, block: Block, logs: seq<Log>)
    ensures h.swaps <= Harvested(h, block, logs).swaps
    ensures h.threw ==> Harvested(h, block, logs) == h
  {
    if logs != [] { ThrownStays(h, block, logs[..|logs| - 1]); }
  }

  lemma {:induction false} HarvestedGrows(h: Harvest, block: Block, logs: seq<Log>, n: nat)
    requires n <= |logs|
    ensures var part, all := Harvested(h, block, logs[..n]), Harvested(h, block, logs);
            part.swaps <= all.swaps && (part.threw ==> all == part)
    decreases |logs| - n
  {
    if n < |logs| {
      assert logs[..n + 1][..n] == logs[..n];
      HarvestedGrows(h, block, logs, n + 1);
    } else {
      assert logs[..n] == logs;
    }
  }

  lemma {:induction false} PageGrows(blocks: seq<Block>, n: nat)
    requires n <= |blocks|
    ensures var part, all := HarvestPage(blocks[..n]), HarvestPage(blocks);
            part.swaps <= all.swaps && (part.threw ==> all == part)
    decreases |blocks| - n
  {
    if n < |blocks| {
      assert blocks[..n + 1][..n] == blocks[..n];
      ThrownStays(HarvestPage(blocks[..n]), blocks[n], blocks[n].logs);
      PageGrows(blocks, n + 1);
    } else {
      assert blocks[..n] == blocks;
    }
  }

  lemma HarvestNext(h: Harvest, block: Block, logs: seq<Log>, j: nat)
    requires j < |logs| && !Harvested(h, block, logs[..j]).threw
    ensures var before, after := Harvested(h, block, logs[..j]), Harvested(h, block, logs[..j + 1]);
            match Read(block, logs[j])
            case Skipped => after == before
            case Throws => after == before.(threw := true)
            case Found(swap) => after == before.(swaps := before.swaps + [swap])
  {
    assert logs[..j + 1][..j] == logs[..j];
    hide Read;
  }

  predicate Full(cap: Option<nat>, have: nat, swaps: seq<Swap>) {
    cap.Some? && have + |swaps| >= cap.value
  }

  /** The inner loop breaks after a swap that reaches the cap. */
  predicate Sated(cap: Option<nat>, have: nat, before: seq<Swap>, swaps: seq<Swap>) {
    |before| < |swaps| && Full(cap, have, swaps)
  }

  /** The inner loop: the logs of one block, until the cap is reached or decoding throws. */
  method ReadBlock(block: Block, before: seq<Swap>, have: nat, cap: Option<nat>)
    returns (swaps: seq<Swap>, threw: bool)
    requires cap != Some(0) ==> !Full(cap, have, before)
    ensures var h := Harvested(Harvest(before, false), block, block.logs);
            if Sated(cap, have, before, swaps) then before <= swaps <= h.swaps && !threw
            else h == Harvest(swaps, threw) && before <= swaps
  {
    swaps, threw := before, false;
    ghost var start := Harvest(before, false);
    var j := 0;
    assert block.logs[..0] == [] && Harvested(start, block, []) == start;
    hide Harvested, Read;
    while j < |block.logs|
      invariant 0 <= j <= |block.logs|
      invariant Harvested(start, block, block.logs[..j]) == Harvest(swaps, threw)
      invariant before <= swaps && !Sated(cap, have, before, swaps) && !threw
    {
      HarvestNext(start, block, block.logs, j);
      match Read(block, block.logs[j]) {
        case Skipped =>
        case Throws => threw := true;
        case Found(swap) => swaps := swaps + [swap];
      }
      j := j + 1;
      if threw || Sated(cap, have, before, swaps) { break; }
    }
    HarvestedGrows(start, block, block.logs, j);
    assert j == |block.logs| ==> block.logs[..j] == block.logs;
  }

  /** The first n blocks of a page. */
  function HarvestTo(blocks: seq<Block>, n: nat): Harvest
    requires n <= |blocks|
  {
    HarvestPage(blocks[..n])
  }

  function ReachedTo(blocks: seq<Block>, n: nat): Option<int>
    requires n <= |blocks|
  {
    Reached(blocks[..n])
  }

  lemma PageStarts(blocks: seq<Block>)
    ensures HarvestTo(blocks, 0) == Harvest([], false) && ReachedTo(blocks, 0) == None
    ensures HarvestTo(blocks, |blocks|) == HarvestPage(blocks) && ReachedTo(blocks, |blocks|) == Reached(blocks)
  {
    assert blocks[..|blocks|] == blocks;
  }

  lemma PageNext(blocks: seq<Block>, i: nat)
    requires i < |blocks|
    ensures HarvestTo(blocks, i + 1) == Harvested(HarvestTo(blocks, i), blocks[i], blocks[i].logs)
    ensures ReachedTo(blocks, i + 1) == if blocks[i].number.Some? then blocks[i].number else ReachedTo(blocks, i)
  {
    hide Harvested;
    Prefixes(blocks, i);
  }

  /** What the nested loops make of a page. */
  predicate PageRead(blocks: seq<Block>, have: nat, cap: Option<nat>, swaps: seq<Swap>, threw: bool) {
    var h := HarvestPage(blocks);
    if cap == Some(0) then (threw <==> FirstThrows(blocks)) && (!threw ==> swaps <= h.swaps)
    else if Full(cap, have, swaps) then swaps <= h.swaps && !threw
    else h == Harvest(swaps, threw)
  }

  lemma FirstDecides(blocks: seq<Block>)
    requires blocks != []
    ensures FirstThrows(blocks) <==> HarvestTo(blocks, 1) == Harvest([], true)
  {
    PageStarts(blocks);
    PageNext(blocks, 0);
    hide Harvested, HarvestTo;
  }

  lemma HarvestGrows(blocks: seq<Block>, n: nat)
    requires n <= |blocks|
    ensures var part, all := HarvestTo(blocks, n), HarvestPage(blocks);
            part.swaps <= all.swaps && (part.threw ==> all == part)
  {
    PageGrows(blocks, n);
    hide HarvestPage;
  }

  /** One more block read, or the end of the page. */
  lemma PageStep(blocks: seq<Block>, i: nat, before: seq<Swap>, have: nat, cap: Option<nat>, swaps: seq<Swap>, threw: bool)
    requires i < |blocks| && HarvestTo(blocks, i) == Harvest(before, false)
    requires if cap == Some(0) then i == 0 else !Full(cap, have, before)
    requires var h := Harvested(Harvest(before, false), blocks[i], blocks[i].logs);
             if Sated(cap, have, before, swaps) then before <= swaps <= h.swaps && !threw
             else h == Harvest(swaps, threw) && before <= swaps
    ensures if threw || Full(cap, have, swaps) then PageRead(blocks, have, cap, swaps, threw)
            else HarvestTo(blocks, i + 1) == Harvest(swaps, false)
  {
    hide Harvested, HarvestPage, HarvestTo, ReachedTo, FirstThrows;
    PageStarts(blocks);
    PageNext(blocks, i);
    HarvestGrows(blocks, i + 1);
    FirstDecides(blocks);
  }

  lemma PageEnds(blocks: seq<Block>, have: nat, cap: Option<nat>, swaps: seq<Swap>)
    requires HarvestTo(blocks, |blocks|) == Harvest(swaps, false)
    requires if cap == Some(0) then blocks == [] else !Full(cap, have, swaps)
    ensures PageRead(blocks, have, cap, swaps, false)
  {
    hide HarvestPage, HarvestTo;
    PageStarts(blocks);
  }

  method ReadPage(blocks: seq<Block>, have: nat, cap: Option<nat>)
    returns (swaps: seq<Swap>, reachedBlock: Option<int>, threw: bool)
    requires cap != Some(0) ==> !Full(cap, have, [])
    ensures PageRead(blocks, have, cap, swaps, threw)
    ensures !threw && !Full(cap, have, swaps) ==> reachedBlock == Reached(blocks)
  {
    hide Harvested, HarvestTo, ReachedTo, HarvestPage, Reached, FirstThrows, PageRead;
    swaps, reachedBlock, threw := [], None, false;
    var i := 0;
    PageStarts(blocks);
    while i < |blocks|
      invariant 0 <= i <= |blocks| && !threw
      invariant HarvestTo(blocks, i) == Harvest(swaps, false) && reachedBlock == ReachedTo(blocks, i)
      invariant if cap == Some(0) then i == 0 else !Full(cap, have, swaps)
    {
      PageNext(blocks, i);
      if blocks[i].number.Some? { reachedBlock := blocks[i].number; }
      ghost var before := swaps;
      swaps, threw := ReadBlock(blocks[i], swaps, have, cap);
      PageStep(blocks, i, before, have, cap, swaps, threw);
      if threw || Full(cap, have, swaps) { return; }
      i := i + 1;
    }
    PageEnds(blocks, have, cap, swaps);
  }

  /** A page as the loop reads it decides the turn as the page as a whole does. */
  lemma PageDecides(q: Query, p: Pager, blocks: seq<Block>, swaps: seq<Swap>, reached: Option<int>, threw: bool)
    requires (q.cap != Some(0) ==> !CapReached(q, p.results)) && blocks != []
    requires PageRead(blocks, |p.results|, q.cap, swaps, threw)
    requires !threw && !Full(q.cap, |p.results|, swaps) ==> reached == Reached(blocks)
    ensures var results := p.results + swaps;
            AfterPage(q, p, blocks) ==
            if threw then Stop(None)
            else if CapReached(q, results) then Stop(Some(results[..q.cap.value]))
            else if reached.None? || reached.value < p.nextBlock then Stop(Some(results))
            else
              Again(p.(nextBlock := reached.value + 1, results := results, requests := p.requests + 1,
                       accepted := p.accepted + [Accepted(p.nextBlock, WindowEnd(q, p), reached.value)]))
  {
    var h := HarvestPage(blocks);
    hide HarvestPage, Reached, WindowEnd;
    if q.cap != Some(0) && Full(q.cap, |p.results|, swaps) {
      var m := q.cap.value;
      assert swaps[..m - |p.results|] == h.swaps[..m - |p.results|];
      assert (p.results + swaps)[..m] == p.results + swaps[..m - |p.results|];
      assert (p.results + h.swaps)[..m] == p.results + h.swaps[..m - |p.results|];
    }
  }

  lemma FetchedFollows(q: Query, worker: Worker, p: Pager)
    requires p.nextBlock <= q.lastBlock
    ensures TakeTurn(q, worker, p).Stop? ==> Fetched(q, worker, p).result == TakeTurn(q, worker, p).result
    ensures TakeTurn(q, worker, p).Again? ==>
              Fetched(q, worker, p) == Fetched(q, worker, TakeTurn(q, worker, p).pager)
  {
    hide AfterPage, AfterFailure;
  }

  lemma FetchedEnds(q: Query, worker: Worker, p: Pager)
    requires p.nextBlock > q.lastBlock
    ensures Fetched(q, worker, p).result == Some(p.results)
  {
  }

  lemma EmptyPageStops(q: Query, p: Pager)
    ensures AfterPage(q, p, []) == Stop(Some(p.results))
  {
  }

  lemma FailureDecides(q: Query, p: Pager, retriable: bool)
    ensures var half := p.blockSpan / 2;
            AfterFailure(q, p, retriable) ==
            if !(retriable && p.blockSpan > q.Minimum()) then Stop(None)
            else
              Again(p.(blockSpan := if half < q.Minimum() then q.Minimum() else half,
                       requests := p.requests + 1, shrinks := p.shrinks + 1))
  {
  }

  /** The paging loop: null (None) where the source logs the failure and returns null. */
  method FetchPoolSwaps(q: Query, latestHeight: int, worker: Worker) returns (result: Option<seq<Swap>>)
    ensures result == if latestHeight < q.fromBlock then Some([]) else Fetched(q, worker, Start(q)).result
  {
    if latestHeight < q.fromBlock { return Some([]); }
    var nextBlock, blockSpan, results, requests := q.fromBlock, q.InitialSpan(), [], 0;
    ghost var p := Start(q);
    StartIsSound(q);
    hide HarvestPage, Reached, AfterPage, AfterFailure, Fetched, Left, PageRead;
    while nextBlock <= q.lastBlock
      invariant p.nextBlock == nextBlock && p.blockSpan == blockSpan && p.results == results && p.requests == requests
      invariant q.cap != Some(0) ==> !CapReached(q, results)
      invariant Fetched(q, worker, p).result == Fetched(q, worker, Start(q)).result
      decreases Left(q, p), p.blockSpan
    {
      FetchedFollows(q, worker, p);
      var windowToBlock := if nextBlock + blockSpan - 1 < q.lastBlock then nextBlock + blockSpan - 1 else q.lastBlock;
      assert windowToBlock == WindowEnd(q, p);
      hide WindowEnd;
      var response := worker(requests, nextBlock, windowToBlock);
      requests := requests + 1;
      if response.Failed? {
        FailureDecides(q, p, response.retriable);
        if !(response.retriable && blockSpan > q.Minimum()) { return None; }
        var half := blockSpan / 2;
        blockSpan := if half < q.Minimum() then q.Minimum() else half;
      } else {
        if |response.blocks| == 0 {
          EmptyPageStops(q, p);
          return Some(results);
        }
        var swaps, reachedBlock, threw := ReadPage(response.blocks, |results|, q.cap);
        PageDecides(q, p, response.blocks, swaps, reachedBlock, threw);
        if threw { return None; }
        results := results + swaps;
        if q.cap.Some? && |results| >= q.cap.value { return Some(results[..q.cap.value]); }
        if reachedBlock.None? || reachedBlock.value < nextBlock { return Some(results); }
        nextBlock := reachedBlock.value + 1;
      }
      TurnDescends(q, worker, p);
      p := TakeTurn(q, worker, p).pager;
    }
    FetchedEnds(q, worker, p);
    result := Some(results);
  }
}
