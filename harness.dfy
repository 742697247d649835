/** The process-wide state of main.cpp and the driver that uses it: the key
    pool (`keyPool`, filled by `generateKeyPool`, read by `getRandomKey`), the
    configuration integers, and the report files the two sweeps write. */
module Harness {
  import opened RandomStrings
  import opened Workloads
  import opened Trials
  import opened Sweep

  /** `KEY_POOL_SIZE` and `KEY_POOL_MIN_LENGTH`; the maximum length is `KEY_SIZE`. */
  const KeyPoolSize: nat := 5
  const KeyPoolMinLength: nat := 8

  /** The five integers read from the configuration file, in file order. Only
      `numExp` (`NUM_EXP`) and `iter` (`ITER`) influence the sweeps. */
  datatype Config = Config(numPutters: int, numGetters: int, numExp: int, iter: int, mu: int)

  /** The file each sweep writes its report line to. */
  function ReportFile(impl: MapImpl): string {
    match impl
    case Monkey => "output_monkey.txt"
    case Tbb => "output_TBB.txt"
  }

  /** The two sweeps write to different files, so the second report does not
      replace the first. */
  lemma ReportFilesDistinct()
    ensures ReportFile(Monkey) != ReportFile(Tbb)
  {
    assert ReportFile(Monkey)[7] == 'm' && ReportFile(Tbb)[7] == 'T';
  }

  /** Number of `rand()` draws the first `k` pool strings consume, for these
      length draws. */
  function Consumed(lengths: seq<int>, k: nat): nat
    requires k <= |lengths|
  {
    if k == 0 then 0 else Consumed(lengths, k - 1) + Width(lengths[k - 1])
  }

  /** String `i` that `generateKeyPool` builds from these length draws: it has
      `lengths[i]` characters (none for a length below one) and is spelled from
      the draws that follow those of string `i - 1` in the one `rand()` stream. */
  function PoolString(lengths: seq<int>, i: nat, draws: seq<nat>): (s: string)
    requires i < |lengths| && Consumed(lengths, i + 1) <= |draws|
    ensures |s| == Width(lengths[i]) && IsAlnumString(s)
  {
    Spell(draws[Consumed(lengths, i)..Consumed(lengths, i + 1)])
  }

  /** The first `k` strings `generateKeyPool` builds, in order. */
  function PoolStrings(lengths: seq<int>, k: nat, draws: seq<nat>): (pool: seq<string>)
    requires k <= |lengths| && Consumed(lengths, k) <= |draws|
    ensures |pool| == k
  {
    if k == 0 then [] else PoolStrings(lengths, k - 1, draws) + [PoolString(lengths, k - 1, draws)]
  }

  /** Pool string `i` has `lengths[i]` characters (none for a length below
      one), all alphanumeric. */
  lemma {:induction false} PoolStringsShape(lengths: seq<int>, k: nat, draws: seq<nat>)
    requires k <= |lengths| && Consumed(lengths, k) <= |draws|
    ensures forall i :: 0 <= i < k ==>
      |PoolStrings(lengths, k, draws)[i]| == Width(lengths[i]) && IsAlnumString(PoolStrings(lengths, k, draws)[i])
  {
    if k > 0 {
      PoolStringsShape(lengths, k - 1, draws);
      var pool := PoolStrings(lengths, k, draws);
      assert pool[..k - 1] == PoolStrings(lengths, k - 1, draws);
    }
  }

  /** Fewer strings consume no more draws. */
  lemma {:induction false} ConsumedMonotone(lengths: seq<int>, i: nat, k: nat)
    requires i <= k <= |lengths|
    ensures Consumed(lengths, i) <= Consumed(lengths, k)
  {
    if i < k {
      ConsumedMonotone(lengths, i, k - 1);
    }
  }

  /** One more pool string is the next string spelled from the draws that
      follow those already consumed. */
  lemma PoolSnoc(lengths: seq<int>, i: nat, draws: seq<nat>)
    requires i < |lengths| && Consumed(lengths, i + 1) <= |draws|
    ensures Consumed(lengths, i) + Width(lengths[i]) <= |draws|
    ensures PoolStrings(lengths, i + 1, draws) == PoolStrings(lengths, i, draws) + [PoolString(lengths, i, draws)]
  {
  }

  /** Pool string `i` is spelled from the first `lengths[i]` draws that follow
      those already consumed. */
  lemma PoolStringFrom(lengths: seq<int>, i: nat, draws: seq<nat>)
    requires i < |lengths| && Consumed(lengths, i + 1) <= |draws|
    ensures PoolString(lengths, i, draws) == Spell(draws[Consumed(lengths, i)..][..Width(lengths[i])])
  {
    var start := Consumed(lengths, i);
    assert draws[start..][..Width(lengths[i])] == draws[start..Consumed(lengths, i + 1)];
  }

  /** Appending the pool strings built from in-range length draws to an
      alphanumeric pool keeps the strings already there, keeps every string
      alphanumeric and puts each new one's length in the range. */
  lemma PoolAppended(prefix: seq<string>, lengths: seq<int>, k: nat, minLength: int, maxLength: int, draws: seq<nat>)
    requires k <= |lengths| && Consumed(lengths, k) <= |draws|
    requires forall i :: 0 <= i < k ==> minLength <= lengths[i] <= maxLength
    requires forall j :: 0 <= j < |prefix| ==> IsAlnumString(prefix[j])
    ensures var all := prefix + PoolStrings(lengths, k, draws);
      && |all| == |prefix| + k && all[..|prefix|] == prefix
      && (forall j :: 0 <= j < |all| ==> IsAlnumString(all[j]))
      && forall j :: |prefix| <= j < |all| ==> Width(minLength) <= |all[j]| <= Width(maxLength)
  {
    var pool := PoolStrings(lengths, k, draws);
    var all := prefix + pool;
    PoolStringsShape(lengths, k, draws);
    assert all[..|prefix|] == prefix;
    forall j | 0 <= j < |all|
      ensures IsAlnumString(all[j])
      ensures |prefix| <= j ==> Width(minLength) <= |all[j]| <= Width(maxLength)
    {
      if |prefix| <= j {
        assert all[j] == pool[j - |prefix|];
      } else {
        assert all[j] == prefix[j];
      }
    }
  }

  /** With length draws in `[minLength, maxLength]` and `minLength >= 0`, every
      pool string has a length in that range and is alphanumeric. */
  lemma PoolStringsInRange(minLength: int, maxLength: int, lengths: seq<int>, k: nat, draws: seq<nat>)
    requires 0 <= minLength
    requires k <= |lengths| && Consumed(lengths, k) <= |draws|
    requires forall i :: 0 <= i < k ==> minLength <= lengths[i] <= maxLength
    ensures forall s :: s in PoolStrings(lengths, k, draws) ==>
      minLength <= |s| <= maxLength && IsAlnumString(s)
  {
    var pool := PoolStrings(lengths, k, draws);
    PoolStringsShape(lengths, k, draws);
    forall s | s in pool
      ensures minLength <= |s| <= maxLength && IsAlnumString(s)
    {
      var i :| 0 <= i < |pool| && pool[i] == s;
      assert |s| == Width(lengths[i]);
    }
  }

  class Benchmark {
    /** The configuration read at startup. */
    const config: Config
    /** `keyPool`. */
    var keyPool: seq<string>
    /** The contents of the files written so far, by name. */
    var files: map<string, string>

    /** Every string in the pool is alphanumeric. */
    ghost predicate Valid()
      reads this
    {
      forall i :: 0 <= i < |keyPool| ==> IsAlnumString(keyPool[i])
    }

    constructor (config: Config)
      ensures Valid()
      ensures this.config == config && keyPool == [] && files == map[]
    {
      this.config := config;
      keyPool := [];
      files := map[];
    }

    /** `generateKeyPool(minLength, maxLength, size)`: appends `size` strings (none
        when `size <= 0`) to the pool and leaves the strings already there
        unchanged and in order. `lengths` are the draws of
        `uniform_int_distribution(minLength, maxLength)`; `draws` the `rand()`
        stream the strings are spelled from. */
    method GenerateKeyPool(minLength: int, maxLength: int, size: int, lengths: seq<int>, draws: seq<nat>)
      requires Valid()
      requires Width(size) <= |lengths|
      requires forall i :: 0 <= i < Width(size) ==> minLength <= lengths[i] <= maxLength
      requires Consumed(lengths, Width(size)) <= |draws|
      modifies this`keyPool
      ensures Valid()
      ensures keyPool == old(keyPool) + PoolStrings(lengths, Width(size), draws)
    {
      ghost var before := keyPool;
      var i := 0;
      var offset := 0;
      while i < size
        invariant 0 <= i <= Width(size)
        invariant offset == Consumed(lengths, i) <= |draws|
        invariant keyPool == before + PoolStrings(lengths, i, draws)
      {
        ConsumedMonotone(lengths, i + 1, Width(size));
        PoolSnoc(lengths, i, draws);
        PoolStringFrom(lengths, i, draws);
        var s := GenerateRandomString(lengths[i], draws[offset..]);
        assert s == PoolString(lengths, i, draws);
        assert keyPool + [s] == before + PoolStrings(lengths, i + 1, draws);
        keyPool := keyPool + [s];
        offset := offset + Width(lengths[i]);
        i := i + 1;
      }
      assert i == Width(size);
      PoolAppended(before, lengths, i, minLength, maxLength, draws);
    }

    /** `getRandomKey()`: the pool entry at an index drawn from `[0, KEY_POOL_SIZE - 1]`. */
    method GetRandomKey(draw: int) returns (key: string)
      requires Valid()
      requires 0 <= draw <= KeyPoolSize - 1 && KeyPoolSize <= |keyPool|
      ensures key in keyPool && key == keyPool[draw]
      ensures IsAlnumString(key)
    {
      key := keyPool[draw];
    }

    /** `runTestsMonkey()` / `runTestsTBB()`: the sweep, then the report line
        followed by a newline written to the map's report file, replacing what
        that file held. */
    method RunTests(impl: MapImpl, oracle: seq<seq<Observation>>, show: Entry -> string)
      returns (trials: seq<seq<Trial>>, report: seq<Entry>)
      requires Fed(oracle, config.numExp, config.iter)
      modifies this`files
      ensures SweptUpTo(trials, report, MaxReaders, impl, config.numExp, config.iter, oracle)
      ensures files == old(files)[ReportFile(impl) := Render(report, show) + "\n"]
    {
      var output;
      trials, report, output := RunSweep(impl, config.numExp, config.iter, oracle, show);
      files := files[ReportFile(impl) := output + "\n"];
    }

    /** What `main` does once the configuration is read: build a pool of
        `KEY_POOL_SIZE` keys with lengths in `[KEY_POOL_MIN_LENGTH, KEY_SIZE]`,
        then sweep the Monkey map, then the TBB map. */
    method RunAll(lengths: seq<int>, draws: seq<nat>,
                  monkeyOracle: seq<seq<Observation>>, tbbOracle: seq<seq<Observation>>,
                  show: Entry -> string)
      returns (monkeyReport: seq<Entry>, tbbReport: seq<Entry>)
      requires Valid()
      requires KeyPoolSize <= |lengths|
      requires forall i :: 0 <= i < KeyPoolSize ==> KeyPoolMinLength <= lengths[i] <= KeySize
      requires Consumed(lengths, KeyPoolSize) <= |draws|
      requires Fed(monkeyOracle, config.numExp, config.iter)
      requires Fed(tbbOracle, config.numExp, config.iter)
      modifies this`keyPool, this`files
      ensures Valid()
      ensures keyPool == old(keyPool) + PoolStrings(lengths, KeyPoolSize, draws)
      ensures |keyPool| == |old(keyPool)| + KeyPoolSize && keyPool[..|old(keyPool)|] == old(keyPool)
      ensures forall i :: |old(keyPool)| <= i < |keyPool| ==>
        KeyPoolMinLength <= |keyPool[i]| <= KeySize && IsAlnumString(keyPool[i])
      ensures |monkeyReport| == |tbbReport| == MaxReaders
      ensures forall k :: 0 <= k < MaxReaders ==>
        && monkeyReport[k] == EntryFor(monkeyOracle, config.numExp, k)
        && tbbReport[k] == EntryFor(tbbOracle, config.numExp, k)
      ensures files == old(files)
        [ReportFile(Monkey) := Render(monkeyReport, show) + "\n"]
        [ReportFile(Tbb) := Render(tbbReport, show) + "\n"]
      ensures files[ReportFile(Monkey)] == Render(monkeyReport, show) + "\n"
      ensures files[ReportFile(Tbb)] == Render(tbbReport, show) + "\n"
    {
      BuildPool(lengths, draws);
      ghost var pool := keyPool;
      var monkeyTrials, tbbTrials;
      monkeyTrials, monkeyReport := RunTests(Monkey, monkeyOracle, show);
      tbbTrials, tbbReport := RunTests(Tbb, tbbOracle, show);
      assert keyPool == pool;
      ReportFilesDistinct();
    }

    /** The key pool step of `main`: `generateKeyPool(KEY_POOL_MIN_LENGTH, KEY_SIZE, KEY_POOL_SIZE)`. */
    method BuildPool(lengths: seq<int>, draws: seq<nat>)
      requires Valid()
      requires KeyPoolSize <= |lengths|
      requires forall i :: 0 <= i < KeyPoolSize ==> KeyPoolMinLength <= lengths[i] <= KeySize
      requires Consumed(lengths, KeyPoolSize) <= |draws|
      modifies this`keyPool
      ensures Valid()
      ensures keyPool == old(keyPool) + PoolStrings(lengths, KeyPoolSize, draws)
      ensures |keyPool| == |old(keyPool)| + KeyPoolSize && keyPool[..|old(keyPool)|] == old(keyPool)
      ensures forall i :: |old(keyPool)| <= i < |keyPool| ==>
        KeyPoolMinLength <= |keyPool[i]| <= KeySize && IsAlnumString(keyPool[i])
    {
      ghost var before := keyPool;
      GenerateKeyPool(KeyPoolMinLength, KeySize, KeyPoolSize, lengths, draws);
      PoolAppended(before, lengths, KeyPoolSize, KeyPoolMinLength, KeySize, draws);
    }
  }
}
