/** Translation between the engine's interest bits and the event loop's
    readiness bits. */
module FdEvents {

  /** `ZOOKEEPER_WRITE` and `ZOOKEEPER_READ` of the ZooKeeper C client. */
  const ZooWrite: bv32 := 0x1
  const ZooRead: bv32 := 0x2

  /** `FdEvent::kReadable` and `FdEvent::kWritable` of the event loop, whose
      header is not part of this model: any two distinct single bits serve,
      and no property below depends on which. */
  const kReadable: bv32 := 0x1
  const kWritable: bv32 := 0x4

  /** The mask `UpdateEvent` arms for an engine interest: readable iff the
      engine wants to read, writable iff it wants to write, nothing else. */
  function EventsOf(interest: bv32): (r: bv32)
    ensures (r & kReadable != 0) <==> (interest & ZooRead != 0)
    ensures (r & kWritable != 0) <==> (interest & ZooWrite != 0)
    ensures r & !(kReadable | kWritable) == 0
  {
    (if interest & ZooRead != 0 then kReadable else 0)
      | (if interest & ZooWrite != 0 then kWritable else 0)
  }

  /** The interest `HandleEvent` feeds back to the engine for an observed
      event mask: read iff readable, write iff writable, nothing else. */
  function InterestOf(events: bv32): (r: bv32)
    ensures (r & ZooRead != 0) <==> (events & kReadable != 0)
    ensures (r & ZooWrite != 0) <==> (events & kWritable != 0)
    ensures r & !(ZooRead | ZooWrite) == 0
  {
    (if events & kReadable != 0 then ZooRead else 0)
      | (if events & kWritable != 0 then ZooWrite else 0)
  }

  /** The two translations are inverse on the bits they carry. */
  lemma TranslationsInverse(interest: bv32, events: bv32)
    ensures InterestOf(EventsOf(interest)) == interest & (ZooRead | ZooWrite)
    ensures EventsOf(InterestOf(events)) == events & (kReadable | kWritable)
  {
  }
}
