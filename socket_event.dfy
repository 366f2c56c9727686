/**
 * `SocketEvent`: the set of epoll events a socket is registered for in
 * the event loop. `Schedule(flags)` registers exactly `flags` and records
 * them in `scheduled_flags`; the convenience operations add or remove the
 * read group (READ, HANGUP, ERROR) or WRITE from the current mask.
 */
module SocketEvent {
  const READ: bv32 := 0x001    // EPOLLIN
  const WRITE: bv32 := 0x004   // EPOLLOUT
  const ERROR: bv32 := 0x008   // EPOLLERR
  const HANGUP: bv32 := 0x010  // EPOLLHUP

  /** The events `ScheduleRead()` adds and `CancelRead()` removes. */
  const READ_GROUP: bv32 := READ | HANGUP | ERROR

  function WithRead(flags: bv32): bv32 {
    flags | READ_GROUP
  }

  function WithWrite(flags: bv32): bv32 {
    flags | WRITE
  }

  function WithoutRead(flags: bv32): bv32 {
    flags & !READ_GROUP
  }

  function WithoutWrite(flags: bv32): bv32 {
    flags & !WRITE
  }

  predicate ReadPending(flags: bv32) {
    flags & READ != 0
  }

  predicate WritePending(flags: bv32) {
    flags & WRITE != 0
  }

  /** `ScheduleRead()` adds the whole read group, keeps every other bit, and is idempotent. */
  lemma ScheduleReadMask(flags: bv32)
    ensures ReadPending(WithRead(flags))
    ensures WithRead(flags) & HANGUP != 0 && WithRead(flags) & ERROR != 0
    ensures WithRead(flags) & !READ_GROUP == flags & !READ_GROUP
    ensures WritePending(WithRead(flags)) == WritePending(flags)
    ensures WithRead(WithRead(flags)) == WithRead(flags)
  {
    ReadAdded(flags);
    GroupAdded(flags);
    OthersKeptByWithRead(flags);
    WriteKeptByWithRead(flags);
    WithReadIdempotent(flags);
  }

  /** `CancelRead()` removes the read group, keeps every other bit (WRITE among them). */
  lemma CancelReadMask(flags: bv32)
    ensures !ReadPending(WithoutRead(flags))
    ensures WithoutRead(flags) & READ_GROUP == 0
    ensures WithoutRead(flags) & !READ_GROUP == flags & !READ_GROUP
    ensures WritePending(WithoutRead(flags)) == WritePending(flags)
  {
    GroupRemoved(flags);
    OthersKeptByWithoutRead(flags);
    WriteKeptByWithoutRead(flags);
  }

  /** `ScheduleWrite()` and `CancelWrite()` touch WRITE only. */
  lemma WriteMasks(flags: bv32)
    ensures WritePending(WithWrite(flags)) && !WritePending(WithoutWrite(flags))
    ensures WithWrite(flags) & !WRITE == flags & !WRITE
    ensures WithoutWrite(flags) & !WRITE == flags & !WRITE
    ensures ReadPending(WithWrite(flags)) == ReadPending(flags)
    ensures ReadPending(WithoutWrite(flags)) == ReadPending(flags)
  {
    WriteToggled(flags);
    OthersKeptByWithWrite(flags);
    OthersKeptByWithoutWrite(flags);
    ReadKeptByWrites(flags);
  }

  /** Cancelling reads undoes scheduling them, on a mask that had none of the read group. */
  lemma CancelReadUndoesScheduleRead(flags: bv32)
    requires flags & READ_GROUP == 0
    ensures WithoutRead(WithRead(flags)) == flags
  {
  }

  // One bit-vector fact per lemma: together in one proof they are far costlier.

  lemma ReadAdded(flags: bv32)
    ensures ReadPending(WithRead(flags))
  {
  }

  lemma GroupAdded(flags: bv32)
    ensures WithRead(flags) & HANGUP != 0 && WithRead(flags) & ERROR != 0
  {
  }

  lemma OthersKeptByWithRead(flags: bv32)
    ensures WithRead(flags) & !READ_GROUP == flags & !READ_GROUP
  {
  }

  lemma WriteKeptByWithRead(flags: bv32)
    ensures WritePending(WithRead(flags)) == WritePending(flags)
  {
  }

  lemma WithReadIdempotent(flags: bv32)
    ensures WithRead(WithRead(flags)) == WithRead(flags)
  {
  }

  lemma GroupRemoved(flags: bv32)
    ensures WithoutRead(flags) & READ_GROUP == 0
    ensures !ReadPending(WithoutRead(flags))
  {
  }

  lemma OthersKeptByWithoutRead(flags: bv32)
    ensures WithoutRead(flags) & !READ_GROUP == flags & !READ_GROUP
  {
  }

  lemma WriteKeptByWithoutRead(flags: bv32)
    ensures WritePending(WithoutRead(flags)) == WritePending(flags)
  {
  }

  lemma WriteToggled(flags: bv32)
    ensures WritePending(WithWrite(flags)) && !WritePending(WithoutWrite(flags))
  {
  }

  lemma OthersKeptByWithWrite(flags: bv32)
    ensures WithWrite(flags) & !WRITE == flags & !WRITE
  {
  }

  lemma OthersKeptByWithoutWrite(flags: bv32)
    ensures WithoutWrite(flags) & !WRITE == flags & !WRITE
  {
  }

  lemma ReadKeptByWrites(flags: bv32)
    ensures ReadPending(WithWrite(flags)) == ReadPending(flags)
    ensures ReadPending(WithoutWrite(flags)) == ReadPending(flags)
  {
  }

  class SocketEvent {
    const fd: int
    /** The events currently registered in the event loop. */
    var scheduledFlags: bv32

    constructor (fd: int)
      ensures this.fd == fd && scheduledFlags == 0
    {
      this.fd := fd;
      scheduledFlags := 0;
    }

    function GetScheduledFlags(): bv32
      reads this
    {
      scheduledFlags
    }

    /** `IsReadPending()` */
    predicate IsReadPending()
      reads this
    {
      ReadPending(scheduledFlags)
    }

    /** `IsWritePending()` */
    predicate IsWritePending()
      reads this
    {
      WritePending(scheduledFlags)
    }

    /** `Schedule(flags)`: registers exactly `flags`. */
    method Schedule(flags: bv32)
      modifies this
      ensures scheduledFlags == flags
    {
      scheduledFlags := flags;
    }

    /** `Cancel()`: registers nothing; the destructor does this too. */
    method Cancel()
      modifies this
      ensures scheduledFlags == 0 && !IsReadPending() && !IsWritePending()
    {
      Schedule(0);
    }

    method ScheduleRead()
      modifies this
      ensures scheduledFlags == WithRead(old(scheduledFlags))
      ensures IsReadPending() && IsWritePending() == old(IsWritePending())
    {
      ScheduleReadMask(scheduledFlags);
      Schedule(WithRead(GetScheduledFlags()));
    }

    method ScheduleWrite()
      modifies this
      ensures scheduledFlags == WithWrite(old(scheduledFlags))
      ensures IsWritePending() && IsReadPending() == old(IsReadPending())
    {
      WriteMasks(scheduledFlags);
      Schedule(WithWrite(GetScheduledFlags()));
    }

    method CancelRead()
      modifies this
      ensures scheduledFlags == WithoutRead(old(scheduledFlags))
      ensures !IsReadPending() && IsWritePending() == old(IsWritePending())
    {
      CancelReadMask(scheduledFlags);
      Schedule(WithoutRead(GetScheduledFlags()));
    }

    method CancelWrite()
      modifies this
      ensures scheduledFlags == WithoutWrite(old(scheduledFlags))
      ensures !IsWritePending() && IsReadPending() == old(IsReadPending())
    {
      WriteMasks(scheduledFlags);
      Schedule(WithoutWrite(GetScheduledFlags()));
    }
  }
}
