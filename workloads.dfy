/** The thread bodies of main.cpp: the putters (`putterMonkey`, `putterTBB`) and
    the getters (`getterMonkey`, `getterTBB`), written once for both maps. The
    maps themselves are not modelled: a putter produces the log of the insertion
    calls it issues, a getter the number of iterator steps of each traversal. */
module Workloads {
  import opened RandomStrings

  /** `KEY_SIZE`: the length of every key a putter inserts. */
  const KeySize: nat := 50

  /** The number of full traversals every getter performs. */
  const Traversals: nat := 1000

  /** The two maps under test. */
  datatype MapImpl = Monkey | Tbb

  /** One insertion call: `put` on the Monkey map, `emplace` on the TBB map. */
  datatype MapCall = Put(key: string, value: int) | Emplace(key: string, value: int)

  /** How a trial constructs its fresh map: `MonkeyHashMap(ITER, 0.5)` (the load
      factor kept as a percentage) or `concurrent_hash_map(ITER*2)`. */
  datatype Construction = MonkeyNew(capacity: int, loadFactorPercent: nat) | TbbNew(capacity: int)

  function MapFor(impl: MapImpl, iter: int): (c: Construction)
    ensures c.MonkeyNew? <==> impl == Monkey
  {
    match impl
    case Monkey => MonkeyNew(iter, 50)
    case Tbb => TbbNew(iter * 2)
  }

  /** The insertion call the putter for `impl` issues. */
  function InsertCall(impl: MapImpl, key: string, value: int): (c: MapCall)
    ensures c.key == key && c.value == value
    ensures c.Put? <==> impl == Monkey
  {
    match impl
    case Monkey => Put(key, value)
    case Tbb => Emplace(key, value)
  }

  /** The draws that spell the key of put number `i`: each key takes the next
      `KeySize` draws of the stream. */
  function KeyDraws(draws: seq<nat>, i: nat): (d: seq<nat>)
    requires (i + 1) * KeySize <= |draws|
    ensures |d| == KeySize
  {
    draws[i * KeySize..(i + 1) * KeySize]
  }

  /** The log of `n` insertion calls a putter issues from these draws. */
  function PutLog(impl: MapImpl, n: nat, draws: seq<nat>): (log: seq<MapCall>)
    requires n * KeySize <= |draws|
    ensures |log| == n
  {
    seq(n, i requires 0 <= i < n => InsertCall(impl, Spell(KeyDraws(draws, i)), i))
  }

  /** Call `i` of the log inserts the value `i` under a fresh alphanumeric key of
      `KEY_SIZE` characters, with `put` on the Monkey map and `emplace` on TBB. */
  lemma PutLogCalls(impl: MapImpl, n: nat, draws: seq<nat>)
    requires n * KeySize <= |draws|
    ensures forall i :: 0 <= i < n ==>
      && PutLog(impl, n, draws)[i].value == i
      && (PutLog(impl, n, draws)[i].Put? <==> impl == Monkey)
      && |PutLog(impl, n, draws)[i].key| == KeySize && IsAlnumString(PutLog(impl, n, draws)[i].key)
  {
  }

  /** A putter thread: `ITER` insertions in order, the `i`-th with a fresh random
      key of `KEY_SIZE` alphanumeric characters and the value `i`. */
  method Putter(impl: MapImpl, iter: int, draws: seq<nat>) returns (calls: seq<MapCall>)
    requires Width(iter) * KeySize <= |draws|
    ensures calls == PutLog(impl, Width(iter), draws)
    ensures |calls| == Width(iter)
    ensures forall i :: 0 <= i < |calls| ==>
      calls[i].value == i && calls[i] == InsertCall(impl, calls[i].key, i)
      && |calls[i].key| == KeySize && IsAlnumString(calls[i].key)
  {
    calls := [];
    var i := 0;
    while i < iter
      invariant 0 <= i <= Width(iter)
      invariant calls == PutLog(impl, i, draws)
    {
      assert draws[i * KeySize..][..KeySize] == KeyDraws(draws, i);
      var key := GenerateRandomString(KeySize, draws[i * KeySize..]);
      calls := calls + [InsertCall(impl, key, i)];
      i := i + 1;
    }
  }

  /** A getter thread: `Traversals` full traversals, one after the other. The
      number of entries traversal `t` finds is `sizes[t]`; the map is filled
      concurrently by the putter, so the sizes are an input. Each traversal
      advances the iterator until it reports no further entry. The result is
      the number of steps each traversal made. */
  method Getter(sizes: seq<nat>) returns (steps: seq<nat>)
    requires Traversals <= |sizes|
    ensures |steps| == Traversals
    ensures forall t :: 0 <= t < Traversals ==> steps[t] == sizes[t]
  {
    steps := [];
    for t := 0 to Traversals
      invariant |steps| == t
      invariant forall u :: 0 <= u < t ==> steps[u] == sizes[u]
    {
      var visited := 0;
      while visited < sizes[t]
        invariant visited <= sizes[t]
      {
        visited := visited + 1;
      }
      steps := steps + [visited];
    }
  }
}
