/** What a publisher object writes to: decided by its first publish, for all of its events. */
module PublisherLink {

  // `shm_` before the first publish, after a Create that threw, and mapped to a segment.
  datatype Link<+T> = Unused | Broken | Mapped(segment: T)

  /**
   * The start of every publish: an unused object creates the segment of the event at hand. Create is exclusive and
   * throws when the segment exists, and then leaves an object behind that has no mapping.
   */
  function Attach<T>(link: Link<T>, exists_: bool, segment: T): Link<T> {
    if !link.Unused? then link else if exists_ then Broken else Mapped(segment)
  }

  // One publish as far as segments go: that of its event, and whether it exists by then.
  datatype Attempt<+T> = Attempt(segment: T, exists_: bool)

  function AttachAll<T>(link: Link<T>, attempts: seq<Attempt<T>>): Link<T>
    decreases |attempts|
  {
    if attempts == [] then link
    else AttachAll(Attach(link, attempts[0].exists_, attempts[0].segment), attempts[1..])
  }

  lemma {:induction false} AttachedStays<T>(link: Link<T>, attempts: seq<Attempt<T>>)
    requires !link.Unused?
    ensures AttachAll(link, attempts) == link
    decreases |attempts|
  {
    if attempts != [] {
      AttachedStays(link, attempts[1..]);
    }
  }

  /**
   * A publisher object can publish exactly when no segment of its first event's name exists at its first publish;
   * all its messages then go to that segment, whatever their events.
   */
  lemma {:induction false} FirstPublishDecides<T>(attempts: seq<Attempt<T>>)
    requires attempts != []
    ensures AttachAll(Unused, attempts) == if attempts[0].exists_ then Broken else Mapped(attempts[0].segment)
  {
    AttachedStays(Attach(Unused, attempts[0].exists_, attempts[0].segment), attempts[1..]);
  }
}
