/** The cache object (src/core/kv_cache.h, src/core/kv_cache.cpp): its length, its per-layer contents, its checkpoint. */
module KvCache {
  import opened Bytes
  import opened Transformer

  /** What the recurrent storage holds, and what a checkpoint copies. */
  datatype Recurrent = Recurrent(conv: seq<Window>, states: seq<Row>)

  class KVCache {
    const maxLen: nat
    const zeroConv: Row
    const zeroState: Row

    var len: nat
    var kv: seq<seq<Entry>>
    var recurrent: Recurrent
    var checkpoint: Option<Recurrent>
    var hasCheckpoint: bool

    ghost predicate Valid()
      reads this
    {
      && len <= maxLen
      && (forall i :: 0 <= i < |kv| ==> |kv[i]| == maxLen)
      && |recurrent.conv| == |recurrent.states|
      && (hasCheckpoint ==>
            checkpoint.Some? && |checkpoint.value.conv| == |checkpoint.value.states| == |recurrent.states|)
    }

    /** All-zero recurrent storage for `n` layers. */
    function ZeroRecurrent(n: nat): (r: Recurrent)
      ensures |r.conv| == |r.states| == n
      ensures forall i :: 0 <= i < n ==> r.conv[i] == Window(zeroConv, zeroConv, zeroConv) && r.states[i] == zeroState
    {
      Recurrent(seq(n, _ => Window(zeroConv, zeroConv, zeroConv)), seq(n, _ => zeroState))
    }

    constructor (maxLen: nat, fullLayers: nat, linearLayers: nat, zeroConv: Row, zeroState: Row)
      ensures Valid() && this.maxLen == maxLen && this.zeroConv == zeroConv && this.zeroState == zeroState
      ensures len == 0 && |kv| == fullLayers && |recurrent.states| == linearLayers && !hasCheckpoint
    {
      this.maxLen, this.zeroConv, this.zeroState := maxLen, zeroConv, zeroState;
      len, hasCheckpoint, checkpoint := 0, false, None;
      kv := seq(fullLayers, _ => seq(maxLen, _ => Entry([], [])));
      recurrent := Recurrent(seq(linearLayers, _ => Window(zeroConv, zeroConv, zeroConv)), seq(linearLayers, _ => zeroState));
    }

    /** Forgets the sequence and zeroes the recurrent storage; the key and value buffers keep what they held. */
    method Clear()
      requires Valid()
      modifies this
      ensures Valid() && len == 0 && !hasCheckpoint && kv == old(kv)
      ensures recurrent == ZeroRecurrent(old(|recurrent.states|))
    {
      recurrent := ZeroRecurrent(|recurrent.states|);
      len := 0;
      hasCheckpoint := false;
    }

    method SetSeqLen(n: nat)
      requires Valid()
      modifies this`len
      ensures Valid() && len == if n <= maxLen then n else maxLen
    {
      len := if n < maxLen then n else maxLen;
    }

    predicate CanAdvance(delta: nat)
      reads this
    {
      len + delta <= maxLen
    }

    /** Advances, or clamps to the capacity and reports failure. */
    method Advance(delta: nat) returns (ok: bool)
      requires Valid()
      modifies this`len
      ensures Valid() && ok == old(CanAdvance(delta))
      ensures len == if ok then old(len) + delta else maxLen
    {
      if len + delta > maxLen {
        len := maxLen;
        return false;
      }
      len := len + delta;
      return true;
    }

    /** Keeps a copy of the recurrent storage, if there is any. */
    method CheckpointRecurrentState()
      requires Valid()
      modifies this`checkpoint, this`hasCheckpoint
      ensures Valid()
      ensures |recurrent.states| > 0 ==> hasCheckpoint && checkpoint == Some(recurrent)
      ensures |recurrent.states| == 0 ==> hasCheckpoint == old(hasCheckpoint) && checkpoint == old(checkpoint)
    {
      if |recurrent.states| == 0 { return; }
      checkpoint := Some(recurrent);
      hasCheckpoint := true;
    }

    method RestoreRecurrentState()
      requires Valid()
      modifies this`recurrent
      ensures Valid() && recurrent == if hasCheckpoint then checkpoint.value else old(recurrent)
    {
      if !hasCheckpoint { return; }
      recurrent := checkpoint.value;
    }

    /** Drops the last `steps` positions and goes back to the checkpoint; reports the out-of-range throw as false. */
    method Rollback(steps: nat) returns (ok: bool)
      requires Valid()
      modifies this`len, this`recurrent, this`hasCheckpoint
      ensures Valid() && ok == (steps <= old(len))
      ensures !ok ==> len == old(len) && recurrent == old(recurrent) && hasCheckpoint == old(hasCheckpoint)
      ensures ok ==> len == old(len) - steps && !hasCheckpoint
      ensures ok ==> recurrent == if old(hasCheckpoint) then checkpoint.value else old(recurrent)
    {
      if steps > len { return false; }
      len := len - steps;
      if hasCheckpoint {
        RestoreRecurrentState();
        hasCheckpoint := false;
      }
      return true;
    }
  }

  /**
    Checkpoint, let anything happen to the recurrent storage, roll back: the storage and the length are as before.
    `overwritten` stands for whatever the draft and verify passes left.
   */
  method SpeculateAndRollBack(cache: KVCache, overwritten: Recurrent, drafted: nat)
    requires cache.Valid() && cache.len + drafted <= cache.maxLen
    requires |overwritten.conv| == |overwritten.states| == |cache.recurrent.states|
    modifies cache
    ensures cache.Valid() && cache.len == old(cache.len) && cache.recurrent == old(cache.recurrent)
  {
    cache.CheckpointRecurrentState();
    var advanced := cache.Advance(drafted);
    cache.recurrent := overwritten;
    var ok := cache.Rollback(drafted);
  }
}
