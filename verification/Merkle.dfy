/** The daily batch object: entries are appended with two counters, and the root is
    rebuilt level by level in a loop. */
module Merkle {
  import opened Model = MerkleModel
  import opened MerkleTree

  class DailyBatch {
    const date: string
    var logs: seq<ExecutionLog>
    var totalOrders: nat
    var totalTrades: nat

    function Trades(entries: seq<ExecutionLog>): nat {
      if entries == [] then 0
      else Trades(entries[..|entries| - 1]) + if entries[|entries| - 1].fillId.Some? then 1 else 0
    }

    /** The counters agree with the entries. */
    ghost predicate Valid()
      reads this
    {
      totalOrders == |logs| && totalTrades == Trades(logs)
    }

    constructor (date: string)
      ensures Valid() && logs == [] && this.date == date
    {
      this.date := date;
      logs, totalOrders, totalTrades := [], 0, 0;
    }

    method AddLog(log: ExecutionLog)
      requires Valid()
      modifies this
      ensures Valid() && logs == old(logs) + [log]
    {
      assert (logs + [log])[..|logs|] == logs;
      logs := logs + [log];
      totalOrders := totalOrders + 1;
      if log.fillId.Some? {
        totalTrades := totalTrades + 1;
      }
    }

    method MerkleRoot(hash: Hash) returns (root: string)
      ensures root == Model.MerkleRoot(hash, logs)
    {
      if logs == [] {
        return hash(EMPTY_BATCH);
      }
      var hashes := LeafHashes(hash, logs);
      while |hashes| > 1
        invariant hashes != [] && Fold(Pair(hash), hashes) == Model.MerkleRoot(hash, logs)
        decreases |hashes|
      {
        hashes := NextLevel(hash, hashes);
      }
      return hashes[0];
    }

    static method LeafHashes(hash: Hash, entries: seq<ExecutionLog>) returns (hashes: seq<string>)
      ensures hashes == HashAll(hash, LeafTexts(entries))
    {
      hashes := [];
      ghost var texts := LeafTexts(entries);
      for i := 0 to |entries|
        invariant |hashes| == i && forall k :: 0 <= k < i ==> hashes[k] == hash(texts[k])
      {
        hashes := hashes + [hash(LeafText(entries[i]))];
      }
    }

    method NextLevel(hash: Hash, hashes: seq<string>) returns (nextLevel: seq<string>)
      ensures nextLevel == Level(Pair(hash), hashes)
    {
      nextLevel := [];
      var i := 0;
      while i < |hashes|
        invariant |nextLevel| == (i + 1) / 2 && i % 2 == 0 && i <= |hashes| + 1
        invariant forall k :: 0 <= k < |nextLevel| ==> nextLevel[k] == Level(Pair(hash), hashes)[k]
      {
        if i + 1 < |hashes| {
          nextLevel := nextLevel + [hash(hashes[i] + hashes[i + 1])];
        } else {
          nextLevel := nextLevel + [hashes[i]];
        }
        i := i + 2;
      }
    }
  }
}
