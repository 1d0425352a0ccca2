/** The event bits that all processes share. */
module EventBits {

  // EVENT_MAX_COUNT.
  const EVENTS: nat := 1024

  // The reserved bit that asks for a registry synchronisation.
  const SYNC: int := EVENTS - 1

  predicate IsEvent(e: int) {
    0 <= e < EVENTS
  }

  /** The bits in shared memory; each method is one section under the segment's mutex. */
  class EventNotification {
    var flags: set<int>

    constructor ()
      ensures flags == {}
    {
      flags := {};
    }

    method TriggerEvent(eventId: int)
      modifies this
      ensures flags == if 0 <= eventId < 1024 then old(flags) + {eventId} else old(flags)
    {
      if IsEvent(eventId) {
        flags := flags + {eventId};
      }
    }

    /** Wakes for any reason and reports the bits as they are. */
    method WaitForEvent() returns (snapshot: set<int>)
      ensures snapshot == flags
    {
      snapshot := flags;
    }

    method ClearEvents(eventId: int)
      requires 0 <= eventId < 1024
      modifies this
      ensures flags == old(flags) - {eventId}
    {
      flags := flags - {eventId};
    }
  }
}
