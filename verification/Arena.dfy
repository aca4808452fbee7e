/**
  The device arena (src/core/arena.cpp), as far as a run can tell: its one persistent buffer. It holds the logits, of
  prefill and of speculative verification alike, and is never freed or resized.
 */
module Arena {
  import opened Bytes

  class DeviceArena {
    /** The size of the persistent buffer in bytes, once it exists. */
    var persistent: Option<nat>

    constructor ()
      ensures persistent == None
    {
      persistent := None;
    }

    /** A request is met unless it is the first and empty, or larger than the first was. */
    predicate Grants(bytes: nat)
      reads this
    {
      if persistent.None? then bytes > 0 else bytes <= persistent.value
    }

    /** `DeviceArena::persistent_buffer`: the first request fixes the size; false stands for the exception. */
    method PersistentBuffer(bytes: nat) returns (ok: bool)
      modifies this
      ensures ok == old(Grants(bytes))
      ensures persistent == if old(persistent) == None && ok then Some(bytes) else old(persistent)
    {
      if persistent.None? {
        if bytes == 0 { return false; }
        persistent := Some(bytes);
        return true;
      }
      return !(bytes > 0 && bytes > persistent.value);
    }
  }
}
