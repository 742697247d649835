# Benchmark harness for two concurrent hash maps: a Dafny model

`main.cpp` benchmarks two concurrent hash maps, a wait-free `MonkeyHashMap` and
Intel TBB's `concurrent_hash_map`. It does this in four steps:

1. It reads five integers from a configuration file: `NUM_PUTTERS`, `NUM_GETTERS`, `NUM_EXP`, `ITER` and `MU`.
2. It fills a pool of five random alphanumeric keys.
3. It runs a sweep on each map. For each reader count from 1 to 15, it runs `NUM_EXP` trials. A trial builds a fresh map, starts a clock, and spawns one putter thread (`ITER` insertions under random 50-character keys) plus that many getter threads (1000 full traversals each). It then joins all of them, stops the clock and deletes everything.
4. It writes the average time per reader count to a report line in `output_monkey.txt` or `output_TBB.txt`.

This project models the sequential logic of that program and proves its
properties. Threads, the clock and randomness are replaced by inputs:

- `rand()` becomes a sequence of non-negative draws.
- `uniform_int_distribution` becomes a sequence of values already in its range.
- The clock becomes one elapsed time in milliseconds per trial.
- The sizes each getter's traversals see become inputs as well.

Modules:

- `RandomStrings`: `generateRandomString`. The method `GenerateRandomString` grows its string one character per loop step. It is proved against the specification function `Spell`, and the 62-symbol table is pinned down by `AlphanumTable`/`PickFromTable`.
- `Options`, `OutputNames`: `getOutputFilename` and the decimal `to_string` it uses. Next to them is a parser that reads a name back. The round-trip lemma proves that the name records the map family, the kind of operation and the thread id.
- `Workloads`: the putter and getter thread bodies, written once for both maps. A putter yields its log of `put`/`emplace` calls. A getter yields the number of iterator steps of each traversal.
- `Trials`: one trial as the ordered log of the runner's steps (map construction, clock start, spawns, joins, clock stop, deletions), with the clock-covers-all-joins property.
- `Sweep`: the loop shared by `runTestsMonkey` and `runTestsTBB`. It covers the reader counts, the per-count accumulator and the report line.
- `Harness`: the class `Benchmark`, holding the global `keyPool` and the report files written so far. Its methods are `generateKeyPool`, `getRandomKey`, the two `runTests*` functions (one generic method) and the steps of `main` after the configuration is read.

## Model

| member | source | states |
|---|---|---|
| RandomStrings.AlphanumRuns | main.cpp:56-59 | the table literal is the ten digits, then `A`–`Z`, then `a`–`z`, each run in code order |
| RandomStrings.AlphanumTable | main.cpp:56-59 | the table has 62 symbols and the array 63 bytes; entry `k < 62` is the `k`-th digit/letter and the array's byte 62 is the NUL terminator |
| RandomStrings.TableChar | main.cpp:56-59 | every entry of the table is a digit or an ASCII letter |
| RandomStrings.TableIndex | main.cpp:66 | `rand() % 62` is an index in `[0, 61]`, equal to the draw when the draw is below 62 |
| RandomStrings.Pick | main.cpp:66 | the character one draw selects is alphanumeric |
| RandomStrings.PickFromTable | main.cpp:56-66 | the selected character is `alphanum[draw % 62]`, is alphanumeric, and is never the NUL terminator |
| RandomStrings.WideDistributionReachesNul | main.cpp:56-60 | the commented-out distribution `(0, sizeof(alphanum) - 1)` could yield index 62, which is exactly the NUL byte; `% 62` never yields it |
| RandomStrings.Spell | main.cpp:62-67 | the string built from `n` draws has exactly `n` characters, all alphanumeric |
| RandomStrings.SpellAt | main.cpp:64-66 | character `i` of the string is the one draw `i` selects |
| RandomStrings.SpellFromTable | main.cpp:62-67 | character `i` of the string is `alphanum[draws[i] % 62]` |
| RandomStrings.GenerateRandomString | main.cpp:55-68 | appending one character per step yields exactly `Spell` of the first `length` draws: `length` alphanumeric characters, empty for `length <= 0` |
| OutputNames.NatToString | main.cpp:47 | a non-empty run of decimal digits with no leading zero |
| OutputNames.IntToString | main.cpp:47 | non-empty, and starts with `-` exactly for a negative value |
| OutputNames.OutputFilename | main.cpp:43-49 | every name starts with the folder `output/` and ends with the extension `.out`; what it records in between is stated by `OutputFilenameRoundTrip` |
| OutputNames.NatToStringRoundTrip | main.cpp:47 | reading the digits back gives the number |
| OutputNames.IntToStringRoundTrip | main.cpp:47 | reading `to_string(n)` back gives `n` |
| OutputNames.ParseFamilyOfTag | main.cpp:45 | the family tag is recognised, and neither tag is a prefix that hides the other |
| OutputNames.ParseOpOfTag | main.cpp:46 | each of the three operation tags is recognised as itself |
| OutputNames.ParseTidOfString | main.cpp:47-48 | the thread id followed by `.out` reads back as the thread id |
| OutputNames.OutputFilenameRoundTrip | main.cpp:43-49 | parsing the file name gives back `(hmType == 0 ? wait-free : lock-based, put/get/remove by opType, tid)` |
| OutputNames.OutputFilenameInjective | main.cpp:43-49 | two calls give the same name only when they agree on the family, the operation kind and the thread id |
| Workloads.KeyDraws | main.cpp:85 | each key takes `KEY_SIZE` draws |
| Workloads.PutLog | main.cpp:84-87 | the log of a putter that loops `n` times holds exactly `n` calls |
| Workloads.PutLogCalls | main.cpp:84-87 | call `i` of the log inserts the value `i` under a 50-character alphanumeric key, with `put` exactly on the Monkey map (`emplace` on TBB, main.cpp:100-103) |
| Workloads.Putter | main.cpp:82-88 | exactly `ITER` insertion calls in order (none for `ITER <= 0`); call `i` has value `i` and a 50-character alphanumeric key; same for `putterTBB` (main.cpp:98-104) |
| Workloads.Getter | main.cpp:90-96 | exactly 1000 traversals, each one visiting every entry the map holds at that time; same for `getterTBB` (main.cpp:106-112) |
| Trials.Threads | main.cpp:127-128 | a trial with `numThreads` getters runs `numThreads + 1` threads |
| Trials.TrialEvents | main.cpp:125-135 | the order of the runner's steps in one trial; a function only, whose properties are stated by `TrialEventAt`, `TrialThreads`, `TrialJoinBarrier` and `TrialMapScoped` below |
| Trials.ThreadsWithTrialEvents | main.cpp:127-135 | for each of spawn, join and delete, the trial applies it to exactly the putter and then getters `1..numThreads`, in that order |
| Trials.TrialThreads | main.cpp:127-135 | the trial spawns, joins and deletes exactly the same `numThreads + 1` threads |
| Trials.TrialEventAt | main.cpp:125-135 | the trial has `3 * numThreads + 7` steps, and gives the step at each position |
| Trials.TrialJoinBarrier | main.cpp:126-131 | the clock starts before every spawn, and every spawned thread is joined before the clock stops |
| Trials.TrialMapScoped | main.cpp:125-133 | the trial's map is built by its first step and deleted right after the clock stops; no other step builds or deletes a map |
| Trials.RunTrial | main.cpp:125-135 | the runner's step log is the trial's event sequence; the putter's log and every getter's traversals are those of the workloads |
| Sweep.RunReaderCount | main.cpp:120-136 | the accumulator starts at zero and ends at the sum of this count's `NUM_EXP` elapsed times; the trials run in order, one per experiment |
| Sweep.SweptSnoc | main.cpp:118-139 | finishing the next reader count extends the completed rows and entries by exactly that count |
| Sweep.RunSweep | main.cpp:117-140 | all 15 reader counts are done in order, entry `k` is reader count `k + 1` with its own total and no other count's time, and the output line is the header, one entry and a space per count, then `]` |
| Sweep.BodySnoc | main.cpp:138 | each count appends its entry text and a space at the end of the line |
| Sweep.Body | main.cpp:138 | the value list has at least one character per entry and ends with a space once there is an entry |
| Sweep.Render | main.cpp:117-140 | the report line starts with `x = 2:16\ny = [` and ends with `]` |
| Sweep.BodySpaces | main.cpp:138 | when no entry text contains a space, the value list holds exactly one space per entry |
| Sweep.SweepCoversRange | main.cpp:117-118 | a finished sweep has 15 entries for reader counts 1..15, strictly increasing, each with `NUM_EXP` trials; thread totals run 2..16 as the header announces |
| Sweep.TotalMsBetween | main.cpp:132-137 | when every trial takes between `lo` and `hi` ms, the total lies between `n*lo` and `n*hi` |
| Harness.PoolString | main.cpp:73 | pool string `i` has `lengths[i]` characters, all alphanumeric |
| Harness.PoolStrings | main.cpp:72-74 | `k` iterations produce `k` strings |
| Harness.PoolStringsShape | main.cpp:71-73 | string `i` of the pool has the length drawn for it and is alphanumeric |
| Harness.PoolStringFrom | main.cpp:73 | pool string `i` is spelled from the draws right after those the earlier strings consumed |
| Harness.PoolAppended | main.cpp:70-75 | appending to an alphanumeric pool keeps the old entries in place and in order, adds `k`, and every new one has a length in `[minLength, maxLength]` |
| Harness.PoolStringsInRange | main.cpp:71-73 | with length draws in `[minLength, maxLength]`, every generated pool string has a length in that range and is alphanumeric |
| Harness.ReportFile | main.cpp:141 | the Monkey report goes to `output_monkey.txt` and the TBB report to `output_TBB.txt` (main.cpp:173); a function only, whose property is `ReportFilesDistinct` |
| Harness.ReportFilesDistinct | main.cpp:141-173 | the two sweeps write different files, so the TBB report does not replace the Monkey report |
| Harness.Benchmark.constructor | main.cpp:41 | the key pool starts empty, and no report file has been written |
| Harness.Benchmark.GenerateKeyPool | main.cpp:70-75 | the pool becomes the old pool followed by the `size` generated strings (none for `size <= 0`), and stays alphanumeric |
| Harness.Benchmark.GetRandomKey | main.cpp:77-80 | returns the pool entry at the drawn index in `[0, KEY_POOL_SIZE - 1]`; it is an element of the pool and alphanumeric |
| Harness.Benchmark.RunTests | main.cpp:114-144 | the completed sweep, with the report line plus a newline written to the map's report file and no other file touched |
| Harness.Benchmark.BuildPool | main.cpp:194 | the pool gains exactly 5 keys after the existing entries, each of 8 to 50 alphanumeric characters |
| Harness.Benchmark.RunAll | main.cpp:194-197 | the pool becomes the old pool followed by the 5 generated keys of 8 to 50 alphanumeric characters; the Monkey report is written, then the TBB report; each has 15 entries, entry `k` being reader count `k + 1` with the total of its own trials; both files hold their report line afterwards |

## Left out

- Threads are not run. A trial is the ordered log of its spawns, joins and deletions; scheduling and interleaving are not modelled. The work of the threads runs inside `RunTrial` in spawn order.
- The clock (`system_clock::now`, `getSysTime`, main.cpp:51-53) is not modelled. Each trial's elapsed milliseconds are an input.
- `MonkeyHashMap` and `tbb::concurrent_hash_map` are not part of this model: their sources are not available. A putter yields its call log instead of filling a map.
- Getter: the number of entries each traversal finds depends on the concurrent putter, so it is an input. The model proves the traversal walks exactly that many steps.
- Random generation is not modelled: `rand()`, the `default_random_engine` and its seeding, and `uniform_int_distribution`. Their results are inputs.
- The program draws from one `rand()` stream shared by all threads and trials. The sweep instead gives each trial its own sequence of draws. For inputs that are arbitrary anyway, this loses nothing.
- GetRandomKey: the index is an input constrained to the distribution's range `[0, KEY_POOL_SIZE - 1]`, not a draw. `getRandomKey` is not called anywhere in the program.
- The floating-point average `totalTime.count()/(NUM_EXP*1000.0f)` and its `to_string` text are not modelled. That includes the division by zero when `NUM_EXP == 0`. An entry keeps the integer total and the trial count, and its text comes from a caller-supplied function `show`.
- RunSweep: the report line is stated in terms of `show`, so the exact digits of each average are not pinned down.
- Console output (`cout`) is not modelled.
- Reading the configuration file and `cin` is not modelled. The values are the fields of `Config`.
- Writing a file is modelled as replacing its contents in `files`. Stream errors are not modelled.
- The `exponential_distribution` built from `MU`, `NUM_PUTTERS`, `NUM_GETTERS`, `hashMapType` and `VALUE_MIN`/`VALUE_MAX` are left out: the program never uses them in the sweeps.
- Heap allocation and deletion of maps, threads and iterators are not modelled, including the never-deleted iterator in `getterMonkey` (main.cpp:93). Deletions appear only as events.
- IntToString: integers are unbounded, so the 32-bit range of `int` and the 64-bit `milliseconds` counter are not modelled. `ITER * 2` in the TBB constructor and the millisecond total do not wrap.
