/**
 * The cache simulator of csim.c: checking the geometry given on the command
 * line, building the cache with every line invalid, `search_update` (one
 * access: decode, hit / fill / evict) and the trace loop of `main`.
 *
 * The specification functions (`Access`, `Step`, `RunTrace`) describe the
 * simulation on values; the class `Simulator` holds the cache and the
 * global counters and clock of the source as fields, and its methods are
 * proved to follow those functions.
 */
module Csim {
  import opened AddressDecode
  import opened CacheSet

  // ---------------------------------------------------------------------
  // Geometry and the start-up checks of main (csim.c:139-152).
  // ---------------------------------------------------------------------

  /** `-s`, `-E`, `-b`: set-index bits, lines per set, block-offset bits. */
  datatype Geometry = Geometry(s: nat, e: nat, b: nat) {
    /**
     * The geometry the simulation is modelled for: s and b positive and E at
     * least 1, as `main` guarantees; s and b at most 30, so that
     * `int S = pow(2, s)` and `int B = pow(2, b)` hold 2^s and 2^b; and every
     * shift count below 64.
     */
    predicate Simulable() {
      e >= 1 && 1 <= s <= 30 && 1 <= b <= 30 && ShiftsDefined(s, b)
    }

    function NumSets(): nat {
      Pow2(s)
    }
  }

  datatype ConfigError = MissingArgument | NegativeArgument(option: char)

  datatype Result<T, E> = Ok(value: T) | Err(error: E)

  /**
   * The checks `main` makes after option parsing. An option that was not
   * given keeps its initial value 0; `tracePath` is None when `-t` was not
   * given. A missing argument prints the usage text, whose function ends
   * the process with status 0; a negative one exits with status 1.
   */
  function Configure(s: int, e: int, b: int, tracePath: Option<string>): (r: Result<Geometry, ConfigError>)
    ensures r.Ok? <==> s > 0 && e > 0 && b > 0 && tracePath.Some?
    ensures r.Ok? ==> r.value.s == s && r.value.e == e && r.value.b == b
    ensures r == Err(MissingArgument) <==> s == 0 || e == 0 || b == 0 || tracePath.None?
    ensures r == Err(NegativeArgument('s')) <==> s < 0 && e != 0 && b != 0 && tracePath.Some?
    ensures r == Err(NegativeArgument('E')) <==> s > 0 && e < 0 && b != 0 && tracePath.Some?
    ensures r == Err(NegativeArgument('b')) <==> s > 0 && e > 0 && b < 0 && tracePath.Some?
  {
    if s == 0 || e == 0 || b == 0 || tracePath.None? then Err(MissingArgument)
    else if s < 0 then Err(NegativeArgument('s'))
    else if e < 0 then Err(NegativeArgument('E'))
    else if b < 0 then Err(NegativeArgument('b'))
    else Ok(Geometry(s, e, b))
  }

  /**
   * The process exit status after the checks, as the code behaves: a missing
   * argument reaches `print_usage_info`, which calls `exit(0)` (csim.c:55),
   * so the `exit(1)` after it is never reached; only a negative argument
   * exits with 1.
   */
  function ExitStatus(r: Result<Geometry, ConfigError>): (status: int)
    ensures status == 1 <==> r.Err? && r.error.NegativeArgument?
    ensures status == 0 <==> r.Ok? || r == Err(MissingArgument)
  {
    match r
    case Ok(_) => 0
    case Err(MissingArgument) => 0
    case Err(NegativeArgument(_)) => 1
  }

  /** The exit status the checks evidently intend: 1 for every error. */
  function IntendedExitStatus(r: Result<Geometry, ConfigError>): (status: int)
    ensures status == 0 <==> r.Ok?
    ensures r.Err? ==> status == 1
  {
    if r.Ok? then 0 else 1
  }

  /** The two statuses differ exactly on a missing argument. */
  lemma ExitStatusDiffersOnMissing(r: Result<Geometry, ConfigError>)
    ensures ExitStatus(r) != IntendedExitStatus(r) <==> r == Err(MissingArgument)
  {
  }

  /** `-s 0` with the other options given exits with 0, not the intended 1. */
  lemma ZeroSetBitsExitsZero()
    ensures Configure(0, 1, 1, Some("t")) == Err(MissingArgument)
    ensures ExitStatus(Configure(0, 1, 1, Some("t"))) == 0
    ensures IntendedExitStatus(Configure(0, 1, 1, Some("t"))) == 1
  {
  }

  /**
   * A configuration `main` accepts is one the simulation is modelled for
   * whenever `int S` and `int B` can hold 2^s and 2^b.
   */
  lemma ConfiguredSimulable(s: int, e: int, b: int, tracePath: Option<string>)
    requires Configure(s, e, b, tracePath).Ok? && s <= 30 && b <= 30
    ensures Configure(s, e, b, tracePath).value.Simulable()
  {
  }

  // ---------------------------------------------------------------------
  // Building the cache (csim.c:155-160).
  // ---------------------------------------------------------------------

  /** `2^s` sets of `E` lines each. */
  predicate Shaped(g: Geometry, cache: seq<seq<Line>>) {
    |cache| == g.NumSets() && forall k :: 0 <= k < |cache| ==> |cache[k]| == g.e
  }

  /**
   * The initialisation loop: every line of freshly allocated memory gets
   * `valid = 0`; its tag and time keep whatever the memory held.
   */
  method InvalidateLines(raw: seq<seq<Line>>) returns (cache: seq<seq<Line>>)
    ensures |cache| == |raw|
    ensures forall k :: 0 <= k < |raw| ==> |cache[k]| == |raw[k]|
    ensures forall k, j :: 0 <= k < |raw| && 0 <= j < |raw[k]| ==> cache[k][j] == raw[k][j].(valid := false)
  {
    cache := raw;
    var k := 0;
    while k < |raw|
      invariant 0 <= k <= |raw| && |cache| == |raw|
      invariant forall m :: 0 <= m < |raw| ==> |cache[m]| == |raw[m]|
      invariant forall m, j :: 0 <= m < k && 0 <= j < |raw[m]| ==> cache[m][j] == raw[m][j].(valid := false)
      invariant forall m :: k <= m < |raw| ==> cache[m] == raw[m]
    {
      var j := 0;
      while j < |raw[k]|
        invariant 0 <= j <= |raw[k]| && |cache| == |raw|
        invariant forall m :: 0 <= m < |raw| ==> |cache[m]| == |raw[m]|
        invariant forall m, i :: 0 <= m < k && 0 <= i < |raw[m]| ==> cache[m][i] == raw[m][i].(valid := false)
        invariant forall i :: 0 <= i < j ==> cache[k][i] == raw[k][i].(valid := false)
        invariant forall i :: j <= i < |raw[k]| ==> cache[k][i] == raw[k][i]
        invariant forall m :: k < m < |raw| ==> cache[m] == raw[m]
      {
        cache := cache[k := cache[k][j := cache[k][j].(valid := false)]];
        j := j + 1;
      }
      k := k + 1;
    }
  }

  // ---------------------------------------------------------------------
  // The simulation as functions on values.
  // ---------------------------------------------------------------------

  /** The cache and the globals `hit`, `miss`, `evict` and `now`. */
  datatype SimState = SimState(cache: seq<seq<Line>>, hit: nat, miss: nat, evict: nat, now: nat)

  /**
   * What holds between accesses: the cache has its shape, every set keeps
   * its invariant, every access counted as a hit or a miss, and evictions
   * are a subset of the misses.
   */
  predicate Invariant(g: Geometry, st: SimState) {
    Shaped(g, st.cache)
    && (forall k :: 0 <= k < |st.cache| ==> SetInvariant(st.cache[k], st.now))
    && st.hit + st.miss == st.now
    && st.evict <= st.miss
  }

  /** The state `main` starts the trace with. */
  predicate Initial(g: Geometry, st: SimState) {
    Shaped(g, st.cache)
    && (forall k, j :: 0 <= k < |st.cache| && 0 <= j < |st.cache[k]| ==> !st.cache[k][j].valid)
    && st.hit == 0 && st.miss == 0 && st.evict == 0 && st.now == 0
  }

  /** `search_update(addr)`: its outcome and the state afterwards. */
  function Access(g: Geometry, st: SimState, addr: nat): (r: (Outcome, SimState))
    requires g.Simulable() && Shaped(g, st.cache)
    ensures Shaped(g, r.1.cache)
  {
    var si := SetIndex(addr, g.s, g.b);
    var (o, lines) := AccessLines(st.cache[si], Tag(addr, g.s, g.b), st.now);
    (o, SimState(st.cache[si := lines],
                 if o == Hit then st.hit + 1 else st.hit,
                 if o == Hit then st.miss else st.miss + 1,
                 if o == MissEvict then st.evict + 1 else st.evict,
                 st.now + 1))
  }

  /** Every state the start-up produces satisfies the invariant. */
  lemma InitialHasInvariant(g: Geometry, st: SimState)
    requires Initial(g, st)
    ensures Invariant(g, st)
  {
    forall k | 0 <= k < |st.cache|
      ensures SetInvariant(st.cache[k], st.now)
    {
      assert forall j :: 0 <= j < |st.cache[k]| ==> !st.cache[k][j].valid;
    }
  }

  /**
   * One access moves the clock and hits + misses by exactly one; a hit
   * moves only `hit`, a fill only `miss`, an eviction `miss` and `evict`.
   */
  lemma AccessCounters(g: Geometry, st: SimState, addr: nat)
    requires g.Simulable() && Shaped(g, st.cache)
    ensures var (o, st') := Access(g, st, addr);
      && st'.now == st.now + 1
      && st'.hit + st'.miss == st.hit + st.miss + 1
      && (o == Hit ==> st'.hit == st.hit + 1 && st'.miss == st.miss && st'.evict == st.evict)
      && (o == MissFill ==> st'.hit == st.hit && st'.miss == st.miss + 1 && st'.evict == st.evict)
      && (o == MissEvict ==> st'.hit == st.hit && st'.miss == st.miss + 1 && st'.evict == st.evict + 1)
  {
  }

  /**
   * One access changes only the set the address decodes to, and in it
   * exactly one line, which afterwards holds the address's tag.
   */
  lemma AccessFrame(g: Geometry, st: SimState, addr: nat)
    requires g.Simulable() && Shaped(g, st.cache)
    ensures var si, st' := SetIndex(addr, g.s, g.b), Access(g, st, addr).1;
      && (forall k :: 0 <= k < |st.cache| && k != si ==> st'.cache[k] == st.cache[k])
      && exists j :: 0 <= j < g.e && Holds(st'.cache[si][j], Tag(addr, g.s, g.b))
                     && st'.cache[si] == st.cache[si][j := st'.cache[si][j]]
  {
    var si, tag := SetIndex(addr, g.s, g.b), Tag(addr, g.s, g.b);
    var st' := Access(g, st, addr).1;
    var lines' := AccessLines(st.cache[si], tag, st.now).1;
    assert st'.cache == st.cache[si := lines'];
    AccessWritesOneLine(st.cache[si], tag, st.now);
    var j :| 0 <= j < |st.cache[si]| && Holds(lines'[j], tag) && lines' == st.cache[si][j := lines'[j]];
    assert st'.cache[si] == lines';
  }

  /**
   * Hit: a valid line of the decoded set holds the tag. The outcome is Hit;
   * that line's time becomes the old clock, `hit` and the clock go up by
   * one, and nothing else changes.
   */
  lemma AccessHitCase(g: Geometry, st: SimState, addr: nat, i: nat)
    requires g.Simulable() && Invariant(g, st)
    requires i < g.e && Holds(st.cache[SetIndex(addr, g.s, g.b)][i], Tag(addr, g.s, g.b))
    ensures var si, tag := SetIndex(addr, g.s, g.b), Tag(addr, g.s, g.b);
      Access(g, st, addr) ==
        (Hit, st.(cache := st.cache[si := st.cache[si][i := Line(true, tag, st.now)]],
                  hit := st.hit + 1, now := st.now + 1))
  {
    var si, tag := SetIndex(addr, g.s, g.b), Tag(addr, g.s, g.b);
    AccessHit(st.cache[si], tag, st.now, i);
  }

  /**
   * Fill: no valid line of the decoded set holds the tag, and line `i` is
   * its first invalid line. The outcome is MissFill; line `i` becomes valid
   * with the tag and the old clock, `miss` and the clock go up by one, and
   * nothing else changes.
   */
  lemma AccessFillCase(g: Geometry, st: SimState, addr: nat, i: nat)
    requires g.Simulable() && Shaped(g, st.cache)
    requires var lines := st.cache[SetIndex(addr, g.s, g.b)];
      && (forall j :: 0 <= j < g.e ==> !Holds(lines[j], Tag(addr, g.s, g.b)))
      && i < g.e && !lines[i].valid && (forall j :: 0 <= j < i ==> lines[j].valid)
    ensures var si, tag := SetIndex(addr, g.s, g.b), Tag(addr, g.s, g.b);
      Access(g, st, addr) ==
        (MissFill, st.(cache := st.cache[si := st.cache[si][i := Line(true, tag, st.now)]],
                       miss := st.miss + 1, now := st.now + 1))
  {
    var si, tag := SetIndex(addr, g.s, g.b), Tag(addr, g.s, g.b);
    AccessFill(st.cache[si], tag, st.now, i);
  }

  /**
   * Evict: no valid line of the decoded set holds the tag and all its lines
   * are valid. The outcome is MissEvict; the victim `v` (least time, lowest
   * index among equals) gets the tag and the old clock, `miss`, `evict` and
   * the clock go up by one, and nothing else changes.
   */
  lemma AccessEvictCase(g: Geometry, st: SimState, addr: nat, v: nat)
    requires g.Simulable() && Shaped(g, st.cache)
    requires var lines := st.cache[SetIndex(addr, g.s, g.b)];
      && (forall j :: 0 <= j < g.e ==> !Holds(lines[j], Tag(addr, g.s, g.b)))
      && (forall j :: 0 <= j < g.e ==> lines[j].valid)
      && IsLruVictim(lines, v)
    ensures var si, tag := SetIndex(addr, g.s, g.b), Tag(addr, g.s, g.b);
      Access(g, st, addr) ==
        (MissEvict, st.(cache := st.cache[si := st.cache[si][v := Line(true, tag, st.now)]],
                        miss := st.miss + 1, evict := st.evict + 1, now := st.now + 1))
  {
    var si, tag := SetIndex(addr, g.s, g.b), Tag(addr, g.s, g.b);
    AccessEvict(st.cache[si], tag, st.now, v);
  }

  /** An access keeps the invariant. */
  lemma AccessKeepsInvariant(g: Geometry, st: SimState, addr: nat)
    requires g.Simulable() && Invariant(g, st)
    ensures Invariant(g, Access(g, st, addr).1)
  {
    var si, tag := SetIndex(addr, g.s, g.b), Tag(addr, g.s, g.b);
    var st' := Access(g, st, addr).1;
    AccessKeepsSetInvariant(st.cache[si], tag, st.now);
    forall k | 0 <= k < |st'.cache|
      ensures SetInvariant(st'.cache[k], st'.now)
    {
      if k != si {
        SetInvariantLater(st.cache[k], st.now, st'.now);
      }
    }
  }

  lemma SetInvariantLater(lines: seq<Line>, now: nat, later: nat)
    requires SetInvariant(lines, now) && now <= later
    ensures SetInvariant(lines, later)
  {
  }

  /** Accessing the same address twice in a row: the second access hits. */
  lemma RepeatedAccessHits(g: Geometry, st: SimState, addr: nat)
    requires g.Simulable() && Shaped(g, st.cache)
    ensures Access(g, Access(g, st, addr).1, addr).0 == Hit
  {
    var si, tag := SetIndex(addr, g.s, g.b), Tag(addr, g.s, g.b);
    AccessThenHit(st.cache[si], tag, st.now);
  }

  // ---------------------------------------------------------------------
  // The trace loop of main (csim.c:175-223).
  // ---------------------------------------------------------------------

  /**
   * One trace line, already scanned: `kind` is the character at index 1 of
   * the line (`L`, `S`, `M`, or anything else), then the address and size.
   */
  datatype Record = Record(kind: char, addr: nat, size: nat)

  /** How many accesses a trace line makes. */
  function Accesses(rec: Record): (n: nat)
    ensures n <= 2
    ensures n == 0 <==> rec.kind != 'S' && rec.kind != 'L' && rec.kind != 'M'
  {
    if rec.kind == 'S' || rec.kind == 'L' then 1
    else if rec.kind == 'M' then 2
    else 0
  }

  /** One trace line: one access for `L`/`S`, two for `M`, none otherwise. */
  function Step(g: Geometry, st: SimState, rec: Record): (st': SimState)
    requires g.Simulable() && Shaped(g, st.cache)
    ensures Shaped(g, st'.cache)
  {
    if rec.kind == 'S' || rec.kind == 'L' then Access(g, st, rec.addr).1
    else if rec.kind == 'M' then Access(g, Access(g, st, rec.addr).1, rec.addr).1
    else st
  }

  /** The whole trace, line by line, in order. */
  function RunTrace(g: Geometry, st: SimState, trace: seq<Record>): (st': SimState)
    requires g.Simulable() && Shaped(g, st.cache)
    ensures Shaped(g, st'.cache)
    decreases |trace|
  {
    if trace == [] then st else RunTrace(g, Step(g, st, trace[0]), trace[1..])
  }

  /**
   * A trace line makes exactly `Accesses(rec)` accesses: the clock and
   * hits + misses rise by that many, and a line that is not `L`, `S` or `M`
   * changes nothing. The second access of an `M` line is a hit.
   */
  lemma StepEffect(g: Geometry, st: SimState, rec: Record)
    requires g.Simulable() && Invariant(g, st)
    ensures Step(g, st, rec).now == st.now + Accesses(rec)
    ensures Step(g, st, rec).hit + Step(g, st, rec).miss == st.hit + st.miss + Accesses(rec)
    ensures Accesses(rec) == 0 ==> Step(g, st, rec) == st
    ensures rec.kind == 'M' ==> Access(g, Access(g, st, rec.addr).1, rec.addr).0 == Hit
    ensures Invariant(g, Step(g, st, rec))
  {
    if rec.kind == 'S' || rec.kind == 'L' {
      AccessCounters(g, st, rec.addr);
      AccessKeepsInvariant(g, st, rec.addr);
    } else if rec.kind == 'M' {
      var st1 := Access(g, st, rec.addr).1;
      AccessCounters(g, st, rec.addr);
      AccessKeepsInvariant(g, st, rec.addr);
      AccessCounters(g, st1, rec.addr);
      AccessKeepsInvariant(g, st1, rec.addr);
      RepeatedAccessHits(g, st, rec.addr);
    }
  }

  /** Total number of accesses a trace makes. */
  function TotalAccesses(trace: seq<Record>): nat
    decreases |trace|
  {
    if trace == [] then 0 else Accesses(trace[0]) + TotalAccesses(trace[1..])
  }

  /**
   * Running a trace keeps the invariant (so evictions never exceed misses),
   * never lowers a counter, and moves the clock and hits + misses by the
   * number of accesses the trace makes.
   */
  lemma {:induction false} RunTraceEffect(g: Geometry, st: SimState, trace: seq<Record>)
    requires g.Simulable() && Invariant(g, st)
    ensures var st' := RunTrace(g, st, trace);
      && Invariant(g, st')
      && st'.now == st.now + TotalAccesses(trace)
      && st'.hit + st'.miss == st.hit + st.miss + TotalAccesses(trace)
      && st.hit <= st'.hit && st.miss <= st'.miss && st.evict <= st'.evict
    decreases |trace|
  {
    if trace != [] {
      var st1 := Step(g, st, trace[0]);
      StepEffect(g, st, trace[0]);
      StepMonotone(g, st, trace[0]);
      RunTraceEffect(g, st1, trace[1..]);
    }
  }

  lemma StepMonotone(g: Geometry, st: SimState, rec: Record)
    requires g.Simulable() && Shaped(g, st.cache)
    ensures st.hit <= Step(g, st, rec).hit && st.miss <= Step(g, st, rec).miss
    ensures st.evict <= Step(g, st, rec).evict
  {
  }

  /** Running two traces one after the other is running their concatenation. */
  lemma {:induction false} RunTraceAppend(g: Geometry, st: SimState, t1: seq<Record>, t2: seq<Record>)
    requires g.Simulable() && Shaped(g, st.cache)
    ensures RunTrace(g, st, t1 + t2) == RunTrace(g, RunTrace(g, st, t1), t2)
    decreases |t1|
  {
    if t1 != [] {
      assert (t1 + t2)[0] == t1[0];
      assert (t1 + t2)[1..] == t1[1..] + t2;
      RunTraceAppend(g, Step(g, st, t1[0]), t1[1..], t2);
    } else {
      assert t1 + t2 == t2;
    }
  }

  // ---------------------------------------------------------------------
  // Residency and repeated accesses.
  // ---------------------------------------------------------------------

  /** Some valid line of the set `addr` decodes to carries its tag. */
  predicate Resident(g: Geometry, st: SimState, addr: nat)
    requires g.Simulable() && Shaped(g, st.cache)
  {
    var si := SetIndex(addr, g.s, g.b);
    exists j :: 0 <= j < g.e && Holds(st.cache[si][j], Tag(addr, g.s, g.b))
  }

  /** An access hits exactly when its block is resident, and leaves it resident. */
  lemma AccessResident(g: Geometry, st: SimState, addr: nat)
    requires g.Simulable() && Shaped(g, st.cache)
    ensures Access(g, st, addr).0 == Hit <==> Resident(g, st, addr)
    ensures Resident(g, Access(g, st, addr).1, addr)
  {
    var si, tag := SetIndex(addr, g.s, g.b), Tag(addr, g.s, g.b);
    AccessFrame(g, st, addr);
    if Resident(g, st, addr) {
      var j :| 0 <= j < g.e && Holds(st.cache[si][j], tag);
      assert FindTag(st.cache[si], tag, 0).Some?;
    }
  }

  /** A trace of n `L` lines, all for `addr`. */
  function Loads(addr: nat, n: nat): (trace: seq<Record>)
    ensures |trace| == n && TotalAccesses(trace) == n
  {
    if n == 0 then [] else [Record('L', addr, 1)] + Loads(addr, n - 1)
  }

  /** Loads of a resident block all hit. */
  lemma {:induction false} ResidentLoads(g: Geometry, st: SimState, addr: nat, n: nat)
    requires g.Simulable() && Shaped(g, st.cache) && Resident(g, st, addr)
    ensures var st' := RunTrace(g, st, Loads(addr, n));
      st'.hit == st.hit + n && st'.miss == st.miss && st'.evict == st.evict
      && Resident(g, st', addr)
    decreases n
  {
    if n > 0 {
      var trace := Loads(addr, n);
      assert trace[0] == Record('L', addr, 1) && trace[1..] == Loads(addr, n - 1);
      AccessResident(g, st, addr);
      AccessCounters(g, st, addr);
      ResidentLoads(g, Access(g, st, addr).1, addr, n - 1);
    }
  }

  /**
   * n loads of one address: one miss (none if the block was already
   * resident) and hits for the rest; at most one eviction.
   */
  lemma RepeatedLoads(g: Geometry, st: SimState, addr: nat, n: nat)
    requires g.Simulable() && Shaped(g, st.cache) && n >= 1
    ensures var st', cold := RunTrace(g, st, Loads(addr, n)), !Resident(g, st, addr);
      && st'.hit == st.hit + n - (if cold then 1 else 0)
      && st'.miss == st.miss + (if cold then 1 else 0)
      && st.evict <= st'.evict <= st.evict + 1
  {
    var trace := Loads(addr, n);
    assert trace[0] == Record('L', addr, 1) && trace[1..] == Loads(addr, n - 1);
    AccessResident(g, st, addr);
    AccessCounters(g, st, addr);
    ResidentLoads(g, Access(g, st, addr).1, addr, n - 1);
  }

  /** An `M` line for a block that is not resident: one miss, then one hit. */
  lemma ModifyCold(g: Geometry, st: SimState, addr: nat, size: nat)
    requires g.Simulable() && Shaped(g, st.cache) && !Resident(g, st, addr)
    ensures var st' := Step(g, st, Record('M', addr, size));
      st'.miss == st.miss + 1 && st'.hit == st.hit + 1 && st'.now == st.now + 2
  {
    var st1 := Access(g, st, addr).1;
    AccessResident(g, st, addr);
    AccessCounters(g, st, addr);
    AccessResident(g, st1, addr);
    AccessCounters(g, st1, addr);
  }

  /** Where the scenario's addresses go with s = 1, b = 1. */
  lemma ScenarioDecode(g: Geometry)
    requires g == Geometry(1, 1, 1)
    ensures SetIndex(0, g.s, g.b) == 0 && Tag(0, g.s, g.b) == 0
    ensures SetIndex(2, g.s, g.b) == 1 && Tag(2, g.s, g.b) == 0
    ensures SetIndex(4, g.s, g.b) == 0 && Tag(4, g.s, g.b) == 1
  {
    assert Pow2(g.s) == 2 && Pow2(g.b) == 2 && Pow2(g.s + g.b) == 4;
    SetIndexIsMiddleBits(0, g.s, g.b);
    SetIndexIsMiddleBits(2, g.s, g.b);
    SetIndexIsMiddleBits(4, g.s, g.b);
    ShiftRightValue(0, g.s + g.b);
    ShiftRightValue(2, g.s + g.b);
    ShiftRightValue(4, g.s + g.b);
  }

  /**
   * Two sets of one line with 2-byte blocks (s = 1, E = 1, b = 1) and the
   * trace L 0, L 2, L 4, L 0: addresses 0 and 4 share set 0 with different
   * tags, so 0 and 2 fill, 4 evicts 0 and the last access evicts 4.
   */
  lemma EndToEndScenario(g: Geometry, st: SimState)
    requires g == Geometry(1, 1, 1) && Initial(g, st)
    ensures var st' := RunTrace(g, st,
                                [Record('L', 0, 1), Record('L', 2, 1), Record('L', 4, 1), Record('L', 0, 1)]);
      st'.hit == 0 && st'.miss == 4 && st'.evict == 2
  {
    var trace := [Record('L', 0, 1), Record('L', 2, 1), Record('L', 4, 1), Record('L', 0, 1)];
    assert |st.cache| == 2 && |st.cache[0]| == 1 && |st.cache[1]| == 1;
    var l1 := st.cache[1][0];
    var st1 := SimState([[Line(true, 0, 0)], [l1]], 0, 1, 0, 1);
    var st2 := SimState([[Line(true, 0, 0)], [Line(true, 0, 1)]], 0, 2, 0, 2);
    var st3 := SimState([[Line(true, 1, 2)], [Line(true, 0, 1)]], 0, 3, 1, 3);
    var st4 := SimState([[Line(true, 0, 3)], [Line(true, 0, 1)]], 0, 4, 2, 4);
    ScenarioFirst(g, st);
    ScenarioSecond(g, l1);
    ScenarioThird(g);
    ScenarioFourth(g);
    assert RunTrace(g, st, trace) == RunTrace(g, st1, trace[1..]);
    assert RunTrace(g, st1, trace[1..]) == RunTrace(g, st2, trace[2..]);
    assert RunTrace(g, st2, trace[2..]) == RunTrace(g, st3, trace[3..]);
    assert RunTrace(g, st3, trace[3..]) == RunTrace(g, st4, []);
  }

  /** L 0 on the cold cache: set 0 is filled with tag 0 at clock 0. */
  lemma ScenarioFirst(g: Geometry, st: SimState)
    requires g == Geometry(1, 1, 1) && Initial(g, st)
    ensures |st.cache| == 2 && |st.cache[1]| == 1
    ensures Access(g, st, 0) ==
      (MissFill, SimState([[Line(true, 0, 0)], [st.cache[1][0]]], 0, 1, 0, 1))
  {
    ScenarioDecode(g);
    assert |st.cache| == 2 && |st.cache[0]| == 1 && |st.cache[1]| == 1;
    AccessFillCase(g, st, 0, 0);
    assert st.cache[1] == [st.cache[1][0]];
    assert st.cache[0][0 := Line(true, 0, 0)] == [Line(true, 0, 0)];
    assert st.cache[0 := st.cache[0][0 := Line(true, 0, 0)]] == [[Line(true, 0, 0)], [st.cache[1][0]]];
  }

  /** L 2: set 1, still invalid, is filled with tag 0 at clock 1. */
  lemma ScenarioSecond(g: Geometry, l1: Line)
    requires g == Geometry(1, 1, 1) && !l1.valid
    ensures Access(g, SimState([[Line(true, 0, 0)], [l1]], 0, 1, 0, 1), 2) ==
      (MissFill, SimState([[Line(true, 0, 0)], [Line(true, 0, 1)]], 0, 2, 0, 2))
  {
    ScenarioDecode(g);
    var st := SimState([[Line(true, 0, 0)], [l1]], 0, 1, 0, 1);
    AccessFillCase(g, st, 2, 0);
    assert st.cache[1][0 := Line(true, 0, 1)] == [Line(true, 0, 1)];
    assert st.cache[1 := st.cache[1][0 := Line(true, 0, 1)]] == [[Line(true, 0, 0)], [Line(true, 0, 1)]];
  }

  /** L 4: set 0 holds tag 0, not 1, and is full: its line is evicted. */
  lemma ScenarioThird(g: Geometry)
    requires g == Geometry(1, 1, 1)
    ensures Access(g, SimState([[Line(true, 0, 0)], [Line(true, 0, 1)]], 0, 2, 0, 2), 4) ==
      (MissEvict, SimState([[Line(true, 1, 2)], [Line(true, 0, 1)]], 0, 3, 1, 3))
  {
    ScenarioDecode(g);
    var st := SimState([[Line(true, 0, 0)], [Line(true, 0, 1)]], 0, 2, 0, 2);
    assert IsLruVictim(st.cache[0], 0);
    AccessEvictCase(g, st, 4, 0);
    assert st.cache[0][0 := Line(true, 1, 2)] == [Line(true, 1, 2)];
    assert st.cache[0 := st.cache[0][0 := Line(true, 1, 2)]] == [[Line(true, 1, 2)], [Line(true, 0, 1)]];
  }

  /** L 0 again: set 0 now holds tag 1, so address 0 evicts it in turn. */
  lemma ScenarioFourth(g: Geometry)
    requires g == Geometry(1, 1, 1)
    ensures Access(g, SimState([[Line(true, 1, 2)], [Line(true, 0, 1)]], 0, 3, 1, 3), 0) ==
      (MissEvict, SimState([[Line(true, 0, 3)], [Line(true, 0, 1)]], 0, 4, 2, 4))
  {
    ScenarioDecode(g);
    var st := SimState([[Line(true, 1, 2)], [Line(true, 0, 1)]], 0, 3, 1, 3);
    assert IsLruVictim(st.cache[0], 0);
    AccessEvictCase(g, st, 0, 0);
    assert st.cache[0][0 := Line(true, 0, 3)] == [Line(true, 0, 3)];
    assert st.cache[0 := st.cache[0][0 := Line(true, 0, 3)]] == [[Line(true, 0, 3)], [Line(true, 0, 1)]];
  }

  // ---------------------------------------------------------------------
  // The three scans of search_update over the lines of one set.
  // ---------------------------------------------------------------------

  /** The hit scan (csim.c:66-74): the first valid line carrying `tag`, if any. */
  method ScanForTag(lines: seq<Line>, tag: nat) returns (found: Option<nat>)
    ensures found == FindTag(lines, tag, 0)
  {
    var i := 0;
    while i < |lines|
      invariant 0 <= i <= |lines|
      invariant forall j :: 0 <= j < i ==> !Holds(lines[j], tag)
    {
      if lines[i].tag == tag && lines[i].valid {
        return Some(i);
      }
      i := i + 1;
    }
    return None;
  }

  /** The fill scan (csim.c:77-86): the first invalid line, if any. */
  method ScanForInvalid(lines: seq<Line>) returns (free: Option<nat>)
    ensures free == FindInvalid(lines, 0)
  {
    var i := 0;
    while i < |lines|
      invariant 0 <= i <= |lines|
      invariant forall j :: 0 <= j < i ==> lines[j].valid
    {
      if !lines[i].valid {
        return Some(i);
      }
      i := i + 1;
    }
    return None;
  }

  /**
   * The victim scan (csim.c:89-98): the line of least time, the first one
   * found when several share it, since only a strictly smaller time replaces
   * the current candidate.
   */
  method ScanForVictim(lines: seq<Line>) returns (victim: nat)
    requires |lines| > 0
    ensures IsLruVictim(lines, victim)
  {
    var minTime := lines[0].time;
    victim := 0;
    var i := 1;
    while i < |lines|
      invariant 1 <= i <= |lines| && victim < i
      invariant minTime == lines[victim].time
      invariant forall j :: 0 <= j < i ==> minTime <= lines[j].time
      invariant forall j :: 0 <= j < victim ==> minTime < lines[j].time
    {
      if lines[i].time < minTime {
        minTime := lines[i].time;
        victim := i;
      }
      i := i + 1;
    }
  }

  // ---------------------------------------------------------------------
  // The simulator object: the globals of csim.c as fields.
  // ---------------------------------------------------------------------

  class Simulator {
    const geom: Geometry
    var cache: seq<seq<Line>>
    var hit: nat
    var miss: nat
    var evict: nat
    var now: nat

    function State(): SimState
      reads this
    {
      SimState(cache, hit, miss, evict, now)
    }

    ghost predicate Valid()
      reads this
    {
      geom.Simulable() && Invariant(geom, State())
    }

    /**
     * Allocation and the initialisation loop: `raw` is what the freshly
     * allocated memory holds; every line of it is made invalid.
     */
    constructor (g: Geometry, raw: seq<seq<Line>>)
      requires g.Simulable() && Shaped(g, raw)
      ensures geom == g && Valid() && Initial(g, State())
      ensures forall k, j :: 0 <= k < |raw| && 0 <= j < g.e ==> cache[k][j] == raw[k][j].(valid := false)
    {
      geom := g;
      var lines := InvalidateLines(raw);
      cache := lines;
      hit, miss, evict, now := 0, 0, 0, 0;
      new;
      InitialHasInvariant(g, State());
    }

    /** `search_update`: returns 1 on a hit, 2 on a miss that fills, 3 on a miss that evicts. */
    method SearchUpdate(addr: nat) returns (res: int)
      requires Valid() && IsAddress(addr)
      modifies this
      ensures Valid()
      ensures (res, State()) == (Access(geom, old(State()), addr).0.Code(), Access(geom, old(State()), addr).1)
    {
      ghost var r := Access(geom, State(), addr);
      AccessKeepsInvariant(geom, State(), addr);
      var si := SetIndex(addr, geom.s, geom.b);
      var tag := Tag(addr, geom.s, geom.b);
      var lines := cache[si];

      var found := ScanForTag(lines, tag);
      if found.Some? {
        var i := found.value;
        AccessHitCase(geom, State(), addr, i);
        cache := cache[si := lines[i := lines[i].(time := now)]];
        now := now + 1;
        hit := hit + 1;
        assert State() == r.1;
        return 1;
      }

      miss := miss + 1;
      var free := ScanForInvalid(lines);
      if free.Some? {
        var i := free.value;
        AccessFillCase(geom, old(State()), addr, i);
        cache := cache[si := lines[i := Line(true, tag, now)]];
        now := now + 1;
        assert State() == r.1;
        return 2;
      }

      evict := evict + 1;
      var victim := ScanForVictim(lines);
      AccessEvictCase(geom, old(State()), addr, victim);
      cache := cache[si := lines[victim := lines[victim].(tag := tag, time := now)]];
      now := now + 1;
      assert State() == r.1;
      return 3;
    }

    /**
     * The trace loop of `main`: one `search_update` per `L` or `S` line, two
     * per `M` line, none for any other line.
     */
    method Run(trace: seq<Record>)
      requires Valid() && forall k :: 0 <= k < |trace| ==> IsAddress(trace[k].addr)
      modifies this
      ensures Valid() && State() == RunTrace(geom, old(State()), trace)
    {
      var k := 0;
      while k < |trace|
        invariant 0 <= k <= |trace| && Valid()
        invariant RunTrace(geom, old(State()), trace) == RunTrace(geom, State(), trace[k..])
      {
        var rec := trace[k];
        assert trace[k..][0] == rec && trace[k..][1..] == trace[k + 1..];
        if rec.kind == 'S' || rec.kind == 'L' {
          var res := SearchUpdate(rec.addr);
        }
        if rec.kind == 'M' {
          var res := SearchUpdate(rec.addr);
          res := SearchUpdate(rec.addr);
        }
        k := k + 1;
      }
    }

    /** The three numbers `printSummary` reports. */
    function Summary(): (counts: (nat, nat, nat))
      reads this
      requires Valid()
      ensures counts.2 <= counts.1
    {
      (hit, miss, evict)
    }
  }
}
