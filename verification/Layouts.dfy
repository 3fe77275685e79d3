/**
 Private counters: where a layout puts them, which cache lines they share, and that the race on them
 is exact although their increments are plain loads and stores.
 */
module Layouts {
  import opened Sums
  import opened RaceMachine
  import opened BarrierProtocol
  import opened CriticalSections
  import opened Refinement

  const LINE_SIZE: nat := 64
  const WORD_SIZE: nat := 8
  const MAX_THREADS: nat := 8
  const MAX_OFFSET: nat := 512

  datatype Layout = Packed | Padded | Offset(offsetBytes: nat) {
    function MaxThreads(): nat {
      if Offset? then 2 else MAX_THREADS
    }

    // The size of the layout's line-aligned block.
    function Size(): nat {
      match this
      case Packed => LINE_SIZE
      case Padded => MAX_THREADS * LINE_SIZE
      case Offset(_) => MAX_OFFSET + LINE_SIZE
    }

    // The word of the block that is counter i; the offset is stored in whole words.
    function WordIndex(i: nat): nat {
      match this
      case Packed => i
      case Padded => i * (LINE_SIZE / WORD_SIZE)
      case Offset(offsetBytes) => i * (offsetBytes / WORD_SIZE)
    }

    function Address(base: nat, i: nat): nat {
      base + WORD_SIZE * WordIndex(i)
    }

    // What OffsetLayout asks of its argument; the other layouts ask nothing.
    predicate Legal() {
      Offset? ==> offsetBytes % WORD_SIZE == 0 && 0 < offsetBytes <= MAX_OFFSET
    }
  }

  function LineOf(address: nat): nat {
    address / LINE_SIZE
  }

  // Counter i lies inside the block.
  predicate InBounds(layout: Layout, i: nat) {
    WORD_SIZE * layout.WordIndex(i) + WORD_SIZE <= layout.Size()
  }

  predicate Disjoint(layout: Layout, base: nat, i: nat, j: nat) {
    || layout.Address(base, i) + WORD_SIZE <= layout.Address(base, j)
    || layout.Address(base, j) + WORD_SIZE <= layout.Address(base, i)
  }

  /** Where the counters lie: 8 bytes apart if packed, 64 if padded; the second of an offset layout the
      offset behind the first, rounded down to whole words.  Packed and padded layouts have room for
      eight of them and no more. */
  lemma CounterAddresses(layout: Layout, base: nat, i: nat)
    ensures layout.MaxThreads() == if layout.Offset? then 2 else 8
    ensures layout.Packed? ==> layout.Address(base, i) == base + 8 * i && (InBounds(layout, i) <==> i < 8)
    ensures layout.Padded? ==> layout.Address(base, i) == base + 64 * i && (InBounds(layout, i) <==> i < 8)
    ensures layout.Offset? ==>
      && layout.Address(base, 0) == base
      && layout.Address(base, 1) == base + layout.offsetBytes - layout.offsetBytes % 8
      && (layout.Legal() ==> layout.Address(base, 1) == base + layout.offsetBytes)
  {
    if layout.Offset? {
      assert layout.WordIndex(1) == layout.offsetBytes / WORD_SIZE && layout.WordIndex(0) == 0;
    }
  }

  /** Every layout keeps its counters in bounds and apart; packed ones share the line, padded ones own
      one each, and offset ones share exactly below 64 bytes. */
  lemma LayoutsKeepApart(layout: Layout, base: nat, i: nat, j: nat)
    requires layout.Legal() && base % LINE_SIZE == 0 && i < j < layout.MaxThreads()
    ensures InBounds(layout, i) && InBounds(layout, j)
    ensures Disjoint(layout, base, i, j)
    ensures layout.WordIndex(i) < layout.WordIndex(j)
    ensures layout.Address(base, j) - layout.Address(base, i)
         == if layout.Packed? then 8 * (j - i) else if layout.Padded? then 64 * (j - i) else layout.offsetBytes
    ensures LineOf(layout.Address(base, i)) == LineOf(layout.Address(base, j)) <==>
      layout.Packed? || (layout.Offset? && layout.offsetBytes < LINE_SIZE)
  {
    if layout.Offset? {
      assert i == 0 && j == 1;
      assert layout.WordIndex(1) == layout.offsetBytes / WORD_SIZE;
    }
  }

  /** OffsetLayout for every argument, legal or not: the constructor checks nothing.  Its two counters
      are apart exactly from 8 bytes on, share a line exactly below 64, and stay inside the buffer
      exactly below 576. */
  lemma OffsetForAnyArgument(offsetBytes: nat, base: nat)
    requires base % LINE_SIZE == 0
    ensures var layout := Offset(offsetBytes);
      && layout.Address(base, 1) - layout.Address(base, 0) == offsetBytes - offsetBytes % WORD_SIZE
      && (Disjoint(layout, base, 0, 1) <==> offsetBytes >= WORD_SIZE)
      && (LineOf(layout.Address(base, 0)) == LineOf(layout.Address(base, 1)) <==> offsetBytes < LINE_SIZE)
      && (InBounds(layout, 0) && InBounds(layout, 1) <==> offsetBytes < MAX_OFFSET + LINE_SIZE)
  {
    var layout := Offset(offsetBytes);
    assert layout.WordIndex(1) == offsetBytes / WORD_SIZE && layout.WordIndex(0) == 0;
  }

  /** RaceRunner::run on n threads of a layout, as a race of plain counters: the pointer of thread i is
      the word of the block at the layout's address, and the words are reset and read in the order of the
      threads. */
  ghost predicate RunsOn(cfg: Config, layout: Layout, base: nat) {
    && cfg.kind.Plain?
    && 1 <= cfg.cpus == cfg.N() <= layout.MaxThreads()
    && cfg.distinct == cfg.counters
    && cfg.iterations < WORD
    && forall i :: 0 <= i < cfg.N() ==> base + WORD_SIZE * cfg.counters[i] == layout.Address(base, i)
  }

  lemma RunnerReady(cfg: Config, layout: Layout, base: nat, memory: seq<Cell>)
    requires layout.Legal() && RunsOn(cfg, layout, base)
    requires Idle(memory) && |memory| == layout.Size() / WORD_SIZE
    ensures Ready(cfg, memory) && Private(cfg)
  {
    forall i | 0 <= i < cfg.N() ensures cfg.counters[i] == layout.WordIndex(i) < |memory| {
      InBoundsAll(layout, i);
    }
    forall i, j | 0 <= i < j < cfg.N() ensures cfg.counters[i] < cfg.counters[j] {
      LayoutsKeepApart(layout, 0, i, j);
    }
  }

  lemma InBoundsAll(layout: Layout, i: nat)
    requires layout.Legal() && i < layout.MaxThreads()
    ensures InBounds(layout, i) && layout.WordIndex(i) < layout.Size() / WORD_SIZE
  {
    if i == 0 {
      LayoutsKeepApart(layout, 0, 0, 1);
    } else {
      LayoutsKeepApart(layout, 0, 0, i);
    }
  }

  lemma OwnTally(counters: seq<nat>, k: nat, i: nat)
    requires i < |counters|
    requires forall a, b :: 0 <= a < b < |counters| ==> counters[a] != counters[b]
    ensures Tally(counters, seq(|counters|, _ => k), counters[i]) == k
  {
    var shares := Shares(counters, seq(|counters|, _ => k), counters[i]);
    SumUpdate(shares, i, 0);
    SumBounds(shares[i := 0], 0, 0);
  }

  /** Every run of RaceRunner::run on any of the layouts ends with every thread's counter at exactly
      `iterations`: no two counters alias, so nothing can come between a load and its store. */
  lemma RunnerIsExact(cfg: Config, layout: Layout, base: nat, memory: seq<Cell>, schedule: seq<nat>, i: nat)
    requires layout.Legal() && RunsOn(cfg, layout, base) && i < cfg.N()
    requires Idle(memory) && |memory| == layout.Size() / WORD_SIZE
    ensures Ready(cfg, memory)
    ensures var s := Run(cfg, Start(cfg, memory), schedule);
      Joined(s.main) ==> s.cells[cfg.counters[i]].v == cfg.iterations
  {
    RunnerReady(cfg, layout, base, memory);
    assert cfg.counters[i] in cfg.distinct;
    CountersExact(cfg, memory, schedule, cfg.counters[i]);
    OwnTally(cfg.counters, cfg.iterations, i);
    WrapSmall(cfg.iterations);
  }
}
