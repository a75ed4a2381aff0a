# cachelab in Dafny: the cache simulator and the matrix transposes

This project models the two parts of the cachelab solution: `csim.c`, a
set-associative cache simulator with LRU replacement, and `trans.c`, a set
of in-place matrix transposes blocked for a small direct-mapped cache.

- `decode.dfy` (module `AddressDecode`) splits a 64-bit address the way
  `search_update` does, with the shifts `(addr << t) >> (t + b)` and
  `addr >> (s + b)` on `unsigned long long` written out. `<<` keeps the low
  64 bits. The lemmas prove that this is the usual tag / set index / offset
  split, and that it is a round trip.
- `cacheset.dfy` (module `CacheSet`) covers one cache set: the hit scan, the
  scan for an invalid line and the LRU victim scan, as functions. It also
  gives the set after one access, and an invariant that every access keeps:
  no duplicate tags, and distinct times below the clock.
- `csim.dfy` (module `Csim`) covers the rest of the simulator:
  - the option checks of `main`;
  - the initialisation loop;
  - one access (`Access`) on the whole state, meaning the cache and the
    globals `hit`, `miss`, `evict` and `now`;
  - the L/S/M dispatch of the trace loop, as a fold (`RunTrace`).

  The class `Simulator` holds the cache and the globals as fields. Its
  methods, `SearchUpdate` and `Run`, have the loops of the C code, and
  they are proved to produce exactly the state the functions describe.
- `trans.dfy` (module `Trans`) holds every transpose as a method that
  writes an `array2<int>` in place, proved to leave `B` equal to the
  transpose of `A`. It also holds `is_transpose`, proved to return 1
  exactly when that holds.
  - The deferred-diagonal scheme of `trans_32_32` and `trans_p4` is one
    method, parameterised by the block size.
  - The quadrant shuffle of `trans_64_64` is modelled loop by loop.

Four quirks of `csim.c` are kept as written:
- `-s 0` and `-b 0` are reported as a missing argument, just like an option
  that was not given.
- The victim among lines with the same time is the lowest index.
- A line whose second character is not `L`, `S` or `M` is skipped.
- A missing argument exits with status 0 (see "Findings").

For the trace `L 0`, `L 2`, `L 4`, `L 0` with s = 1, E = 1, b = 1, the code
gives 4 misses, 2 evictions and 0 hits: addresses 0 and 4 map to the same
set with different tags.
`EndToEndScenario` proves the count the code gives.

## Model

| member | source | states |
|---|---|---|
| AddressDecode.AddressSpaceIsPow2 | csim.c:12 | the address type holds 64 bits: 2^64 is the bound of an address |
| AddressDecode.ShiftLeft64 | csim.c:61 | `<<` on `addr_t` always yields a 64-bit value |
| AddressDecode.ShiftRight | csim.c:61-62 | `>>` on `addr_t` never yields more than its operand |
| AddressDecode.Tag | csim.c:62 | the tag `addr >> (s + b)` is the address divided by 2^(s+b) |
| AddressDecode.SetIndex | csim.c:61 | the set index `(addr << t) >> (t + b)` always names one of the 2^s sets |
| AddressDecode.SetIndexIsMiddleBits | csim.c:61 | the set index is the s bits just above the b offset bits: (addr / 2^b) mod 2^s |
| AddressDecode.ShiftLeft64Value | csim.c:61 | `x << k` on a 64-bit operand is x * 2^k reduced modulo 2^64 |
| AddressDecode.ShiftRightValue | csim.c:62 | `x >> k` is x / 2^k |
| AddressDecode.DecodeRoundTrip | csim.c:61-62 | tag * 2^(s+b) + set * 2^b + offset gives back the address, and the tag fits in 64 - s - b bits |
| AddressDecode.SameDecodeIffSameBlock | csim.c:61-62 | two addresses get the same set and tag if and only if they lie in the same 2^b-byte block |
| CacheSet.Outcome.Code | csim.c:72-101 | the code `search_update` returns is 1, 2 or 3 |
| CacheSet.FindTag | csim.c:66-74 | the hit scan finds the first valid line with the tag, or none exactly when no valid line has it |
| CacheSet.FindInvalid | csim.c:77-86 | the fill scan finds the first invalid line, or none exactly when all lines are valid |
| CacheSet.LruScan | csim.c:89-98 | the victim scan, which moves only on a strictly smaller time, ends on the lowest-indexed line of least time |
| CacheSet.LruVictim | csim.c:89-98 | the victim of a non-empty set has the least time, and every earlier line a strictly larger one |
| CacheSet.LruVictimUnique | csim.c:89-98 | only one line meets that description, so the victim is determined |
| CacheSet.AccessLines | csim.c:59-102 | one access leaves a set of the same size |
| CacheSet.AccessHit | csim.c:66-73 | when a valid line holds the tag, the outcome is Hit and only that line's time changes, to the clock |
| CacheSet.AccessFill | csim.c:76-85 | on a miss with an invalid line, the first invalid line becomes valid with the tag and the clock |
| CacheSet.AccessEvict | csim.c:88-101 | on a miss in a full set, the LRU victim gets the tag and the clock, and stays valid |
| CacheSet.AccessWritesOneLine | csim.c:59-102 | an access rewrites exactly one line of the set, and that line then holds the tag |
| CacheSet.AccessKeepsSetInvariant | csim.c:59-102 | an access keeps the set free of duplicate tags, with distinct times below the next clock |
| CacheSet.AccessThenHit | csim.c:66-73 | accessing the same tag again right away is a hit |
| CacheSet.EvictionTakesOldest | csim.c:88-101 | the evicted line was used strictly before every other line of the set, and the other lines stay as they were |
| CacheSet.LruScenario | csim.c:59-102 | two lines and tags a, b, a, c: fill, fill, hit, then c evicts b (least recently used) and a stays |
| Csim.Configure | csim.c:139-152 | success exactly when s, E, b are positive and a trace file is given; each error case comes in the order of the code (missing first, then negative -s, -E, -b) |
| Csim.ExitStatus | csim.c:142-152 | as the code behaves: status 1 exactly for a negative argument; 0 on success and for a missing argument, which ends in `print_usage_info`'s `exit(0)` |
| Csim.IntendedExitStatus | csim.c:142-152 | the evidently intended status: 0 exactly on success, 1 for every configuration error |
| Csim.ExitStatusDiffersOnMissing | csim.c:142-147 | the actual and the intended status differ exactly on a missing argument |
| Csim.ZeroSetBitsExitsZero | csim.c:142-147 | `-s 0` with the other options given is a missing argument that exits with 0 instead of 1 |
| Csim.ConfiguredSimulable | csim.c:139-152 | an accepted configuration with s <= 30 and b <= 30 is one the simulation is modelled for |
| Csim.InvalidateLines | csim.c:155-160 | the initialisation loop clears `valid` in every line of every set and keeps the rest of each line |
| Csim.Access | csim.c:59-102 | one access on the whole state keeps the cache's shape |
| Csim.InitialHasInvariant | csim.c:155-160 | the state after start-up (all lines invalid, counters and clock 0) satisfies the simulator invariant |
| Csim.AccessCounters | csim.c:59-102 | an access advances the clock by one; a hit raises only `hit`, a fill only `miss`, an eviction `miss` and `evict` |
| Csim.AccessFrame | csim.c:59-102 | an access changes only the decoded set, and there exactly one line, which then holds the tag |
| Csim.AccessHitCase | csim.c:66-73 | the whole state after a hit: one time set to the clock, `hit` + 1, clock + 1 |
| Csim.AccessFillCase | csim.c:76-85 | the whole state after a fill: first invalid line set, `miss` + 1, clock + 1 |
| Csim.AccessEvictCase | csim.c:88-101 | the whole state after an eviction: victim replaced, `miss` + 1, `evict` + 1, clock + 1 |
| Csim.AccessKeepsInvariant | csim.c:59-102 | an access keeps the invariant: set invariants, hit + miss == clock, evictions at most misses |
| Csim.RepeatedAccessHits | csim.c:194-222 | from any state, the second access of the same address is a hit |
| Csim.Accesses | csim.c:177-222 | a trace line makes at most two `search_update` calls, and none exactly when its kind is not `L`, `S` or `M` |
| Csim.Step | csim.c:177-222 | one trace line keeps the cache's shape |
| Csim.RunTrace | csim.c:175-223 | running a trace keeps the cache's shape |
| Csim.StepEffect | csim.c:177-222 | L and S make one access, M two (the second a hit), any other line none and changes nothing; the invariant is kept |
| Csim.RunTraceEffect | csim.c:175-223 | over a whole trace the invariant holds, no counter decreases, and the clock and hit + miss grow by the number of accesses |
| Csim.RunTraceAppend | csim.c:175-223 | running two traces in turn is running their concatenation |
| Csim.AccessResident | csim.c:66-74 | an access hits if and only if its block is resident, and leaves it resident |
| Csim.Loads | csim.c:177-181 | n `L` lines make n accesses |
| Csim.ResidentLoads | csim.c:177-181 | loads of a resident block all hit: `hit` + n, nothing else counted |
| Csim.RepeatedLoads | csim.c:177-181 | n loads of one address: one miss (none if already resident), hits for the rest, at most one eviction |
| Csim.ModifyCold | csim.c:194-222 | an M line for a block that is not resident counts one miss and one hit |
| Csim.EndToEndScenario | csim.c:175-193 | s = 1, E = 1, b = 1, trace L 0, L 2, L 4, L 0 from the cold cache: 0 hits, 4 misses, 2 evictions |
| Csim.ScanForTag | csim.c:66-74 | the hit loop returns what the hit scan specifies |
| Csim.ScanForInvalid | csim.c:77-86 | the fill loop returns what the fill scan specifies |
| Csim.ScanForVictim | csim.c:89-98 | the victim loop returns the lowest-indexed line of least time |
| Csim.Simulator.constructor | csim.c:154-160 | the built cache has 2^s sets of E lines, every line invalid, counters and clock 0 |
| Csim.Simulator.SearchUpdate | csim.c:59-102 | `search_update` returns the code of the outcome, and leaves the fields equal to `Access` on the old state; the invariant is kept |
| Csim.Simulator.Run | csim.c:175-223 | the trace loop leaves the fields equal to `RunTrace` on the old state |
| Csim.Simulator.Summary | csim.c:233 | the reported evictions never exceed the misses |
| Trans.TransposeUnique | trans.c:196-208 | two arrays that are both a transpose of A hold the same values |
| Trans.IsTransposeCheck | trans.c:196-208 | `is_transpose` returns 1 if and only if B[j][i] == A[i][j] for all i < N and j < M, and 0 otherwise |
| Trans.Trans | trans.c:161-171 | the row-wise scan leaves B the transpose of A |
| Trans.Trans61x67 | trans.c:95-110 | strips of 8 columns, the last one cut at M, leave B the transpose of A for every M and N |
| Trans.DeferredDiagonalTranspose | trans.c:22-43 | k x k blocks with each diagonal element written one diagonal step late from `prev`, plus the final corner write, leave B the transpose of A |
| Trans.TransposeBlock | trans.c:29-39 | one block extends the written region and moves `prev` to the last diagonal element met |
| Trans.TransposeBlockRow | trans.c:30-38 | one row of a block writes its off-diagonal cells, and on the diagonal writes the previous diagonal element and keeps the new one |
| Trans.Trans32x32 | trans.c:22-43 | `trans_32_32` leaves B the transpose of A |
| Trans.TransP4 | trans.c:133-154 | `trans_p4` leaves B the transpose of A |
| Trans.Trans64x64 | trans.c:60-92 | `trans_64_64` leaves B the transpose of A |
| Trans.TransposeBlock8x8 | trans.c:64-90 | one 8 x 8 block goes transposed into place and the rest of B is unchanged |
| Trans.UpperQuadrants | trans.c:66-72 | A's upper-left quadrant lands correctly and its upper-right lands transposed in B's upper-right, the wrong quadrant |
| Trans.PlaceRow | trans.c:68-71 | one row of that loop writes B's columns k and k + 4 in the upper rows and nothing else |
| Trans.SwapQuadrants | trans.c:73-83 | the misplaced quadrant moves to B's lower-left while A's lower-left fills B's upper-right |
| Trans.SwapRow | trans.c:76-82 | one row of that swap moves the misplaced values to row k + 4 and fills row k from A |
| Trans.LowerRightQuadrant | trans.c:85-89 | A's lower-right quadrant lands transposed in B's lower-right |
| Trans.TransposeSubmit | trans.c:119-124 | the dispatch by M (32, 64, anything else) leaves B the transpose of A |

## Left out

- Command-line parsing (`getopt`, `atoi`, `-h`, `-v`, the usage text). `Configure` takes the parsed values; an option that was not given is 0 and a missing `-t` is None.
- `S = pow(2, s)` and `B = pow(2, b)` in floating point, stored in an `int`. The number of sets is the exact integer 2^s, and `B` is never read again. The simulation is modelled only for s <= 30 and b <= 30 (`Geometry.Simulable`), the range where each `int` holds its power of two. For s >= 31 or b >= 31 the conversion is undefined in C, and `Configure` accepts such values, just as the code does.
- Opening and reading the trace file, and `sscanf`. A trace is a sequence of records: the character at index 1 of the line, the address and the size. Malformed lines are not modelled.
- `malloc` and `free`. `Simulator.constructor` takes the contents of the fresh memory as a parameter, and the memory is never freed.
- `printSummary`, `registerFunctions` and `registerTransFunction`. These are calls into a driver that is not part of this model; `Simulator.Summary` returns the three numbers.
- Verbose output (`printf`). The outcome codes 1, 2 and 3 carry the same information.
- C `int` overflow of `hit`, `miss`, `evict`, `now` and the line times. The model uses unbounded naturals.
- Shift counts of 64 or more. The shifts are modelled only for s >= 1 and s + b < 64 (`ShiftsDefined`): then `t`, `t + b = 64 - s` and `s + b` all lie in 0..63. For s + b >= 64 the shifts are undefined in C, and `Configure` accepts such values, just as the code does. s = 0 (a right shift by 64) never reaches the simulation, since `main` rejects it as a missing argument.
- Csim.Simulator.SearchUpdate: requires the address to be below 2^64, which the C type `unsigned long long` guarantees.
- Csim.RepeatedLoads: states at most one eviction, not none. Whether the first miss evicts depends on whether the set is already full.
- The capacity property for a whole sequence of more than E distinct blocks in one set (only the E most recent stay resident) is not proved as one statement. `EvictionTakesOldest` proves the step it rests on: each eviction removes the least recently used line and keeps the others.
- The cache-miss counts of the transposes on the 1 KB direct-mapped cache they were tuned for. That cache is simulated by a driver that is not part of this model; only B = Aᵀ is proved.
- Every transpose requires A and B to be different arrays, as the driver always passes them.
- Trans.TransP4: models the call with M = N = 64, the only shape that fits the fixed 64 x 64 loops of `trans_p4` and its array types `A[N][M]`, `B[M][N]`; with any other M or N the C loops run outside the arrays.
- Trans.TransposeSubmit: requires N == M when M is 32 or 64. `trans_32_32` and `trans_64_64` read their arrays as square matrices of that size, and the C code does not check N.

## Findings

| source | as written | input that shows it | evidently intended | confidence | as-written member | corrected member |
|---|---|---|---|---|---|---|
| csim.c:146 | after a missing argument, `print_usage_info` ends with `exit(0)` (csim.c:55), so the `exit(1)` that follows is dead code and the process exits with 0 | `-s 0 -E 1 -b 1 -t t` (or any call without `-t`) | exit status 1, as for every other configuration error | high; not executed | Csim.ExitStatus, Csim.ZeroSetBitsExitsZero | Csim.IntendedExitStatus, Csim.ExitStatusDiffersOnMissing |
