/** Runs of the adapter: any interleaving of opens, closes, operations and
    event-loop callbacks, with any engine answers. */
module KeeperTrace {
  import opened Wrappers
  import opened KeeperState
  import Keeper

  /** One thing that can happen to the adapter: an entry point called by
      the application, or the oldest armed wait firing with the observed
      events. A firing can only happen while a wait is armed. */
  datatype Event =
    | Do(action: Keeper.Action)
    | Fire(events: bv32, p: Keeper.ProcessReply, q: Keeper.InterestReply)

  /** The adapter after one event. A `Fire` with no wait armed cannot
      happen and changes nothing. */
  function Apply(s: Session, e: Event): (r: Exec<Session>)
    ensures Inv(s) && r.Proceed? ==> Inv(r.value)
  {
    match e
    case Do(a) => Keeper.Perform(s, a)
    case Fire(events, p, q) =>
      if s.pending == [] then Proceed(s)
      else
        (match Keeper.HandleEvent(s, events, p, q)
         case Proceed(out) => Proceed(out.session)
         case Abort => Abort)
  }

  /** The adapter after a run of events, or `Abort` if one of them aborts. */
  function Run(s: Session, events: seq<Event>): Exec<Session>
    decreases |events|
  {
    if |events| == 0 then Proceed(s)
    else
      match Apply(s, events[0])
      case Proceed(t) => Run(t, events[1..])
      case Abort => Abort
  }

  /** Every run that does not abort ends in a state satisfying the
      invariant: at most one wait outstanding, exactly one while the
      session is open and recoverable, none once it is unrecoverable, and a
      closed adapter holds no wait and no watcher. */
  lemma {:induction false} RunKeepsInv(s: Session, events: seq<Event>)
    requires Inv(s)
    ensures Run(s, events).Proceed? ==> Inv(Run(s, events).value)
    decreases |events|
  {
    if |events| > 0 {
      match Apply(s, events[0])
      case Proceed(t) => RunKeepsInv(t, events[1..]);
      case Abort =>
    }
  }

  /** The adapter after one event, firings handled by the `HandleEvent` of
      the source as written. */
  function ApplyAsWritten(s: Session, e: Event): Exec<Session> {
    match e
    case Do(a) => Keeper.Perform(s, a)
    case Fire(events, p, q) =>
      if s.pending == [] then Proceed(s)
      else
        (match Keeper.HandleEventAsWritten(s, events, p, q)
         case Proceed(out) => Proceed(out.session)
         case Abort => Abort)
  }

  /** `Run` with `ApplyAsWritten`. */
  function RunAsWritten(s: Session, events: seq<Event>): Exec<Session>
    decreases |events|
  {
    if |events| == 0 then Proceed(s)
    else
      match ApplyAsWritten(s, events[0])
      case Proceed(t) => RunAsWritten(t, events[1..])
      case Abort => Abort
  }

  /** No callback run by any firing of `events` reopens the adapter. */
  predicate NoReopenFirings(events: seq<Event>) {
    forall i :: 0 <= i < |events| && events[i].Fire? ==> Keeper.NoReopen(events[i].p.callbacks)
  }

  /** What the source as written guarantees: as long as no callback reopens
      the adapter during processing, its runs are those of the corrected
      adapter, so they keep the invariant too. */
  lemma {:induction false} AsWrittenKeepsInvWithoutReopen(s: Session, events: seq<Event>)
    requires Inv(s) && NoReopenFirings(events)
    ensures RunAsWritten(s, events) == Run(s, events)
    ensures Run(s, events).Proceed? ==> Inv(Run(s, events).value)
    decreases |events|
  {
    RunKeepsInv(s, events);
    if |events| > 0 {
      var e := events[0];
      if e.Fire? && s.pending != [] {
        Keeper.HandleEventAgreesWithoutReopen(s, e.events, e.p, e.q);
      }
      assert ApplyAsWritten(s, e) == Apply(s, e);
      assert NoReopenFirings(events[1..]) by {
        forall i | 0 <= i < |events[1..]| && events[1..][i].Fire?
          ensures Keeper.NoReopen(events[1..][i].p.callbacks)
        {
          assert events[1..][i] == events[i + 1];
        }
      }
      match Apply(s, e)
      case Proceed(t) => AsWrittenKeepsInvWithoutReopen(t, events[1..]);
      case Abort =>
    }
  }

  /** The same from a freshly constructed adapter. */
  lemma FromNew(listener: bool, events: seq<Event>)
    ensures var r := Run(NewSession(listener), events);
      r.Proceed? ==> |r.value.pending| <= 1
    ensures var r := Run(NewSession(listener), events);
      r.Proceed? && r.value.open && !r.value.unrecoverable ==> |r.value.pending| == 1
    ensures var r := Run(NewSession(listener), events);
      r.Proceed? && !r.value.open ==>
        r.value.pending == [] && r.value.nodeWatchers == map[] && r.value.childWatchers == map[]
  {
    RunKeepsInv(NewSession(listener), events);
  }
}
