/**
 The shared-counter race as a transition system: `race` in its main thread, one worker per CPU,
 and a memory of counters that the workers' pointers may alias in any way.  Memory is a sequence
 of sequentially consistent words and a pointer is an index into it.  One step is one atomic
 access (or one access to a non-atomic field), so a schedule, a sequence of actors, fixes a run.
 */
module RaceMachine {
  import opened Sums

  // ---- The counters ----

  datatype Kind = Plain | LoadStore | FetchAdd | CasLoop | Spinlock | Mutex {
    // An increment is a load and a separate store, with nothing around them.
    predicate Split() { Plain? || LoadStore? }
    // An increment is a load and a separate store between a lock and an unlock.
    predicate Locking() { Spinlock? || Mutex? }
  }

  /** One counter object: the word v_ and, for the lock-based kinds, its lock word. */
  datatype Cell = Cell(v: nat, locked: bool)

  // ---- The apparatus ----

  /** The arguments of `race`, and `distinct`, what sort, unique and erase make of the pointers. */
  datatype Config = Config(kind: Kind, cpus: nat, counters: seq<nat>, distinct: seq<nat>, iterations: nat) {
    function N(): nat { |counters| }

    // `race` only starts threads when there is one counter per CPU and at least one CPU.
    predicate Accepted() { cpus != 0 && |counters| == cpus }

    // All pointers are into a memory of the given size.
    predicate InMemory(memory: nat) {
      && (forall i :: 0 <= i < |counters| ==> counters[i] < memory)
      && (forall j :: 0 <= j < |distinct| ==> distinct[j] < memory)
    }

    // `distinct` holds every pointed-to counter exactly once, in ascending order.
    predicate Deduplicated() {
      && StrictlyAscending(distinct)
      && (forall i :: 0 <= i < |counters| ==> counters[i] in distinct)
      && (forall j :: 0 <= j < |distinct| ==> distinct[j] in counters)
    }

    // RaceResult::expected_total, computed in 64-bit arithmetic.
    function ExpectedTotal(): nat { Wrap(cpus * iterations) }
  }

  predicate Ascending(s: seq<nat>) {
    forall i, j :: 0 <= i < j < |s| ==> s[i] <= s[j]
  }

  /** std::unique followed by erase: keeps the first element of every run of equal elements. */
  function Unique(s: seq<nat>): seq<nat> {
    if |s| <= 1 then s
    else if s[0] == s[1] then Unique(s[1..])
    else [s[0]] + Unique(s[1..])
  }

  /** Where a worker stands.  Top is the loop test together with the first access of increment(). */
  datatype Pc = Unspawned | CheckIn | AwaitGo | Top | Spin | Entered | Loaded | Unlocking | Compare | Finished

  /** A worker: its program counter, the register holding the value it loaded (`expected` in the
      CAS loop), the increments it has completed and the failed attempts it has counted. */
  datatype Worker = Worker(pc: Pc, reg: nat, done: nat, failures: nat)

  datatype MainPc =
    | Resetting(j: nat)
    | Spawning(i: nat)
    | AwaitReady
    | Releasing
    | Joining(i: nat)
    | Folding(i: nat)
    | Summing(j: nat)
    | Returned

  datatype State = State(
    main: MainPc, ready: nat, go: bool, cells: seq<Cell>, workers: seq<Worker>,
    casFailures: nat, observed: nat)

  /** The state in which `race` has copied its arguments: the counters still hold whatever an
      earlier race left in them, and no lock is held. */
  function Start(cfg: Config, memory: seq<Cell>): State {
    State(Resetting(0), 0, false, memory, seq(cfg.N(), _ => Worker(Unspawned, 0, 0, 0)), 0, 0)
  }

  // ---- Steps ----

  /** One step of a worker, on its own locals and the counter it points at. */
  function Local(cfg: Config, w: Worker, cell: Cell, go: bool): (Worker, Cell) {
    match w.pc
    case Unspawned => (w, cell)
    case CheckIn => (w.(pc := AwaitGo), cell)
    case AwaitGo => (if go then w.(pc := Top) else w, cell)
    case Top =>
      if w.done >= cfg.iterations then (w.(pc := Finished), cell)
      else (
        match cfg.kind
        case Plain | LoadStore => (w.(pc := Loaded, reg := cell.v), cell)
        case FetchAdd => (w.(done := w.done + 1), cell.(v := Wrap(cell.v + 1)))
        case CasLoop => (w.(pc := Compare, reg := cell.v), cell)
        case Spinlock => if cell.locked then (w.(pc := Spin), cell) else (w.(pc := Entered), cell.(locked := true))
        case Mutex => if cell.locked then (w, cell) else (w.(pc := Entered), cell.(locked := true))
      )
    case Spin => (if cell.locked then w else w.(pc := Top), cell)
    case Entered => (w.(pc := Loaded, reg := cell.v), cell)
    case Loaded =>
      (if cfg.kind.Split() then w.(pc := Top, done := w.done + 1) else w.(pc := Unlocking),
       cell.(v := Wrap(w.reg + 1)))
    case Unlocking => (w.(pc := Top, done := w.done + 1), cell.(locked := false))
    case Compare =>
      if cell.v == w.reg then (w.(pc := Top, done := w.done + 1), cell.(v := Wrap(w.reg + 1)))
      else (w.(reg := cell.v, failures := w.failures + 1), cell)
    case Finished => (w, cell)
  }

  predicate Shape(cfg: Config, s: State) {
    && cfg.Accepted()
    && cfg.InMemory(|s.cells|)
    && |s.workers| == cfg.N()
  }

  function WorkerStep(cfg: Config, s: State, i: nat): (t: State)
    requires Shape(cfg, s) && i < cfg.N()
    ensures Shape(cfg, t) && |t.cells| == |s.cells|
  {
    var c := cfg.counters[i];
    var (w, cell) := Local(cfg, s.workers[i], s.cells[c], s.go);
    s.(workers := s.workers[i := w],
       cells := s.cells[c := cell],
       ready := if s.workers[i].pc.CheckIn? then s.ready + 1 else s.ready)
  }

  function MainStep(cfg: Config, s: State): (t: State)
    requires Shape(cfg, s)
    ensures Shape(cfg, t) && |t.cells| == |s.cells|
  {
    var distinct := cfg.distinct;
    match s.main
    case Resetting(j) =>
      if j < |distinct| then
        s.(main := Resetting(j + 1), cells := s.cells[distinct[j] := s.cells[distinct[j]].(v := 0)])
      else s.(main := Spawning(0))
    case Spawning(i) =>
      if i < cfg.N() then s.(main := Spawning(i + 1), workers := s.workers[i := s.workers[i].(pc := CheckIn)])
      else s.(main := AwaitReady)
    case AwaitReady => if s.ready < cfg.N() then s else s.(main := Releasing)
    case Releasing => s.(main := Joining(0), go := true)
    case Joining(i) =>
      if i >= cfg.N() then s.(main := Folding(0))
      else if s.workers[i].pc.Finished? then s.(main := Joining(i + 1))
      else s
    case Folding(i) =>
      if i < cfg.N() then s.(main := Folding(i + 1), casFailures := Wrap(s.casFailures + s.workers[i].failures))
      else s.(main := Summing(0))
    case Summing(j) =>
      if j < |distinct| then
        s.(main := Summing(j + 1), observed := Wrap(s.observed + s.cells[distinct[j]].v))
      else s.(main := Returned)
    case Returned => s
  }

  /** Actor cfg.N() is the main thread, a smaller number is that worker; nobody else acts. */
  function Step(cfg: Config, s: State, actor: nat): (t: State)
    requires Shape(cfg, s)
    ensures Shape(cfg, t) && |t.cells| == |s.cells|
  {
    if actor < cfg.N() then WorkerStep(cfg, s, actor)
    else if actor == cfg.N() then MainStep(cfg, s)
    else s
  }

  function Run(cfg: Config, s: State, schedule: seq<nat>): (t: State)
    requires Shape(cfg, s)
    ensures Shape(cfg, t) && |t.cells| == |s.cells|
    decreases |schedule|
  {
    if schedule == [] then s
    else Run(cfg, Step(cfg, s, schedule[0]), schedule[1..])
  }

  lemma {:induction false} RunConcat(cfg: Config, s: State, first: seq<nat>, second: seq<nat>)
    requires Shape(cfg, s)
    ensures Run(cfg, s, first + second) == Run(cfg, Run(cfg, s, first), second)
    decreases |first|
  {
    if first == [] {
      assert first + second == second;
    } else {
      assert (first + second)[1..] == first[1..] + second;
      RunConcat(cfg, Step(cfg, s, first[0]), first[1..], second);
    }
  }

  // ---- Sorting and deduplicating the pointers ----

  lemma {:induction false} UniqueMembers(s: seq<nat>)
    ensures forall x :: x in Unique(s) <==> x in s
  {
    if |s| > 1 {
      UniqueMembers(s[1..]);
      assert s == [s[0]] + s[1..];
      assert s[1] in s[1..];
    }
  }

  lemma {:induction false} UniqueAscends(s: seq<nat>)
    requires Ascending(s)
    ensures StrictlyAscending(Unique(s))
  {
    if |s| > 1 {
      UniqueAscends(s[1..]);
      if s[0] != s[1] {
        UniqueMembers(s[1..]);
        var rest := Unique(s[1..]);
        forall j | 0 <= j < |rest| ensures s[0] < rest[j] {
          assert rest[j] in s[1..];
          var k :| 0 <= k < |s[1..]| && s[1..][k] == rest[j];
          assert s[1] <= s[k + 1];
        }
      }
    }
  }

  /** sort + unique + erase leaves each pointed-to counter exactly once, for any aliasing. */
  lemma SortUniqueDeduplicates(cfg: Config, sorted: seq<nat>)
    requires Ascending(sorted) && multiset(sorted) == multiset(cfg.counters)
    ensures cfg.(distinct := Unique(sorted)).Deduplicated()
  {
    UniqueAscends(sorted);
    UniqueMembers(sorted);
    forall x ensures x in sorted <==> x in cfg.counters {
      assert x in sorted <==> x in multiset(sorted);
      assert x in cfg.counters <==> x in multiset(cfg.counters);
    }
  }

  /** Nothing else is left by it: the deduplicated pointers are determined by the pointers. */
  lemma {:induction false} DeduplicatedIsUnique(xs: seq<nat>, ys: seq<nat>)
    requires StrictlyAscending(xs) && StrictlyAscending(ys)
    requires forall x :: x in xs <==> x in ys
    ensures xs == ys
  {
    if ys != [] {
      assert ys[0] in xs;
    }
    if xs != [] {
      assert xs[0] in ys;
      forall x ensures x in xs[1..] <==> x in ys[1..] {
        assert x in xs <==> x == xs[0] || x in xs[1..];
        assert x in ys <==> x == ys[0] || x in ys[1..];
      }
      DeduplicatedIsUnique(xs[1..], ys[1..]);
    }
  }
}
