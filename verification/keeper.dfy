/** Session lifecycle and event-loop integration of `Keeper::Impl`.

    The engine's answers (the result of `zookeeper_init`, of
    `zookeeper_interest`, of `zookeeper_process`, the negotiated timeout)
    are parameters, so every function below covers every answer the engine
    may give. A fatal `CHECK` or `LOG(FATAL)` is an `Abort`. */
module Keeper {
  import opened Wrappers
  import opened KeeperState
  import opened FdEvents
  import KeeperOps

  /** The timeout substituted when the interest query fails with a zero
      timeout: 100 ms, in microseconds. */
  const kRetryMicros: nat := 100_000
  /** A default-constructed `TimeDiff` (the class is not part of this model;
      it is taken to start at zero). */
  const kZeroMicros: nat := 0
  const ENOMEM: int := 12

  /** What `zookeeper_init` gives back: a handle, or none with `errno` set. */
  datatype InitReply = Handle | InitFailed(errno: int)

  /** What `zookeeper_interest` reports: its status, the descriptor and
      interest bits it wrote, and the timeout it suggests. */
  datatype InterestReply = InterestReply(status: Status, fd: int, interest: bv32, timeoutMicros: nat)

  /** An entry point of the adapter that changes its state, as called by
      the application or, re-entrantly, by a completion or watcher the
      engine runs: `Open` (with the engine's answers), `Close`, or one of
      the operations. */
  datatype Action =
    | DoOpen(timeout: int, init: InitReply, q: InterestReply)
    | DoClose
    | DoCall(req: KeeperOps.Request, submit: Status)

  /** What one `zookeeper_process` call does: its status, whether the session
      is unrecoverable afterwards, and the adapter entry points that the
      completions and watchers it runs call, in order. */
  datatype ProcessReply = ProcessReply(status: Status, unrecoverable: bool, callbacks: seq<Action>)

  /** `Keeper::Impl::timeout()`: zero when closed, otherwise the timeout
      the engine negotiated. */
  function Timeout(s: Session, negotiated: int): (r: int)
    ensures !s.open ==> r == 0
    ensures s.open ==> r == negotiated
  {
    if !s.open then 0 else negotiated
  }

  /** `Keeper::Impl::Close()`: a no-op when closed; otherwise drops the
      handle and the listener, empties both registries and cancels the
      outstanding wait. */
  function Close(s: Session): (r: Session)
    ensures !s.open ==> r == s
    ensures s.open ==> !r.open && !r.listener && r.pending == []
    ensures s.open ==> r.nodeWatchers == map[] && r.childWatchers == map[]
    ensures r.armed == s.armed
    ensures Inv(s) ==> Inv(r)
    ensures ProcessingInv(s) ==> ProcessingInv(r)
  {
    if !s.open then s
    else
      s.(open := false, listener := false, sessionWatch := false, unrecoverable := false,
         nodeWatchers := map[], childWatchers := map[], pending := [])
  }

  /** The out-parameters of `Interest` and whether the engine was asked. */
  datatype InterestOut = InterestOut(status: Status, fd: int, interest: bv32, timeoutMicros: nat, queried: bool)

  /** `Keeper::Impl::Interest(fd, interest, timeout)`, with the caller's
      initial out-values: refuses a closed session without asking the
      engine and without touching the out-values; otherwise passes on the
      engine's answer, taking its timeout only on success. */
  function Interest(s: Session, q: InterestReply, fd: int, interest: bv32, timeoutMicros: nat): (r: InterestOut)
    ensures !s.open ==> r == InterestOut(InvalidState, fd, interest, timeoutMicros, false)
    ensures s.open ==> r.queried && r.status == q.status && r.fd == q.fd && r.interest == q.interest
    ensures s.open && q.status == Ok ==> r.timeoutMicros == q.timeoutMicros
    ensures s.open && q.status != Ok ==> r.timeoutMicros == timeoutMicros
  {
    if !s.open then InterestOut(InvalidState, fd, interest, timeoutMicros, false)
    else InterestOut(q.status, q.fd, q.interest, if q.status == Ok then q.timeoutMicros else timeoutMicros, true)
  }

  /** `event_.AsyncWait(...)`: arms one more wait. */
  function Arm(s: Session, w: Wait): (r: Session)
    ensures r.armed == s.armed + 1 && r.pending == s.pending + [w]
  {
    s.(pending := s.pending + [w], armed := s.armed + 1)
  }

  /** `Keeper::Impl::UpdateEvent()`: queries the interest, aborts on a
      bad-arguments failure, substitutes 100 ms for a zero timeout when the
      query failed, translates the interest bits and arms exactly one wait. */
  function UpdateEvent(s: Session, q: InterestReply): (r: Exec<Session>)
    ensures r.Abort? <==> s.open && q.status == BadArguments
    ensures r.Proceed? ==> |r.value.pending| == |s.pending| + 1 && r.value.pending[..|s.pending|] == s.pending
    ensures r.Proceed? ==> r.value == s.(pending := r.value.pending, armed := s.armed + 1)
    ensures r.Proceed? && s.open ==> r.value.pending[|s.pending|] == Wait(q.fd, EventsOf(q.interest),
      if q.status == Ok then q.timeoutMicros else kRetryMicros)
    ensures r.Proceed? && !s.open ==> r.value.pending[|s.pending|] == Wait(-1, 0, kRetryMicros)
    ensures r.Proceed? ==> (r.value.pending[|s.pending|].timeoutMicros == 0 <==> s.open && q.status == Ok && q.timeoutMicros == 0)
  {
    var out := Interest(s, q, -1, 0, kZeroMicros);
    if out.status == BadArguments then Abort
    else
      var timeout := if out.status != Ok && out.timeoutMicros == 0 then kRetryMicros else out.timeoutMicros;
      Proceed(Arm(s, Wait(out.fd, EventsOf(out.interest), timeout)))
  }

  /** `Keeper::Impl::Open(dest, timeout)`. The caller must not hold an open
      session and must pass a non-negative timeout (both are fatal checks).
      A handle opens the session, installs the session watcher iff a
      listener is set, and arms one wait; a failure with `errno` set (and
      not out of memory) leaves everything as it was; otherwise the process
      aborts. */
  function Open(s: Session, timeout: int, init: InitReply, q: InterestReply): (r: Exec<(bool, Session)>)
    requires !s.open && timeout >= 0
    ensures init.Handle? ==> (r.Abort? <==> q.status == BadArguments)
    ensures init.Handle? && r.Proceed? ==> var t := r.value.1;
      && r.value.0 && t.open && !t.unrecoverable && t.sessionWatch == s.listener
      && t.armed == s.armed + 1 && |t.pending| == |s.pending| + 1
      && t.nodeWatchers == s.nodeWatchers && t.childWatchers == s.childWatchers
    ensures init.Handle? && r.Proceed? ==>
      r.value.1 == UpdateEvent(s.(open := true, unrecoverable := false, sessionWatch := s.listener), q).value
    ensures init.InitFailed? ==> (r.Abort? <==> init.errno == 0 || init.errno == ENOMEM)
    ensures init.InitFailed? && r.Proceed? ==> r.value == (false, s)
    ensures ProcessingInv(s) && r.Proceed? ==> Inv(r.value.1)
  {
    match init
    case Handle =>
      var started := s.(open := true, unrecoverable := false, sessionWatch := s.listener);
      (match UpdateEvent(started, q)
       case Proceed(t) => Proceed((true, t))
       case Abort => Abort)
    case InitFailed(errno) =>
      if errno != 0 && errno != ENOMEM then Proceed((false, s)) else Abort
  }

  /** One entry point taken on `s`. Opening an open session, or with a
      negative timeout, fails the fatal checks of `Open`. */
  function Perform(s: Session, a: Action): (r: Exec<Session>)
    ensures a.DoOpen? ==> (s.open || a.timeout < 0 ==> r.Abort?)
    ensures a.DoClose? ==> r == Proceed(Close(s))
    ensures a.DoCall? ==> r == Proceed(KeeperOps.Call(s, a.req, a.submit).session)
    ensures Inv(s) && r.Proceed? ==> Inv(r.value)
    ensures ProcessingInv(s) && r.Proceed? ==> ProcessingInv(r.value)
  {
    match a
    case DoOpen(timeout, init, q) =>
      if s.open || timeout < 0 then Abort
      else
        (match Open(s, timeout, init, q)
         case Proceed(res) => Proceed(res.1)
         case Abort => Abort)
    case DoClose => Proceed(Close(s))
    case DoCall(req, submit) => Proceed(KeeperOps.Call(s, req, submit).session)
  }

  /** No callback in `cbs` opens the session. */
  predicate NoReopen(cbs: seq<Action>) {
    forall i :: 0 <= i < |cbs| ==> !cbs[i].DoOpen?
  }

  /** The callbacks run by one `zookeeper_process` call, in order; the first
      abort ends the process. */
  function RunCallbacks(s: Session, cbs: seq<Action>): (r: Exec<Session>)
    decreases |cbs|
    ensures cbs == [] ==> r == Proceed(s)
    ensures ProcessingInv(s) && r.Proceed? ==> ProcessingInv(r.value)
    ensures NoReopen(cbs) ==>
      && r.Proceed? && r.value.armed == s.armed
      && (r.value.pending == s.pending || r.value.pending == [])
  {
    if cbs == [] then Proceed(s)
    else
      match Perform(s, cbs[0])
      case Proceed(t) => RunCallbacks(t, cbs[1..])
      case Abort => Abort
  }

  /** The result of `Process` and the interest handed to the engine, if it
      was called. */
  datatype ProcessOut = ProcessOut(status: Status, session: Session, fed: Option<bv32>)

  /** `Keeper::Impl::Process(events)`: refuses a closed session without
      calling the engine; otherwise hands the interest to the engine, which
      may mark the session unrecoverable and runs the callbacks it
      completes. */
  function Process(s: Session, interest: bv32, p: ProcessReply): (r: Exec<ProcessOut>)
    ensures !s.open ==> r == Proceed(ProcessOut(InvalidState, s, None))
    ensures s.open && r.Proceed? ==> r.value.status == p.status && r.value.fed == Some(interest)
    ensures s.open && p.callbacks == [] ==>
      r == Proceed(ProcessOut(p.status, s.(unrecoverable := p.unrecoverable), Some(interest)))
    ensures NoReopen(p.callbacks) ==> r.Proceed? && r.value.session.armed == s.armed
    ensures ProcessingInv(s) && (s.open && p.unrecoverable ==> s.pending == []) && r.Proceed? ==>
      ProcessingInv(r.value.session)
  {
    if !s.open then Proceed(ProcessOut(InvalidState, s, None))
    else
      match RunCallbacks(s.(unrecoverable := p.unrecoverable), p.callbacks)
      case Proceed(t) => Proceed(ProcessOut(p.status, t, Some(interest)))
      case Abort => Abort
  }

  /** The session after an event-loop callback and the interest handed to
      the engine. */
  datatype HandleOut = HandleOut(session: Session, fed: Option<bv32>)

  /** `Keeper::Impl::HandleEvent(events)` as written, run when the oldest
      outstanding wait fires (which consumes it): maps the observed events
      back to interest bits, has the engine process them, aborts on bad
      arguments, and calls `UpdateEvent` once more iff the session is open
      and recoverable afterwards, whether or not a callback has armed a
      wait in the meantime. */
  function HandleEventAsWritten(s: Session, events: bv32, p: ProcessReply, q: InterestReply): (r: Exec<HandleOut>)
    requires s.pending != []
    ensures r.Proceed? ==> Process(s.(pending := s.pending[1..]), InterestOf(events), p).Proceed?
    ensures r.Proceed? ==> var after := Process(s.(pending := s.pending[1..]), InterestOf(events), p).value;
      && after.status != BadArguments
      && r.value.fed == after.fed
      && (if after.session.open && !after.session.unrecoverable
          then UpdateEvent(after.session, q).Proceed?
            && r.value.session == UpdateEvent(after.session, q).value
            && r.value.session.armed == after.session.armed + 1
            && |r.value.session.pending| == |after.session.pending| + 1
          else r.value.session == after.session)
  {
    var fired := s.(pending := s.pending[1..]);
    match Process(fired, InterestOf(events), p)
    case Abort => Abort
    case Proceed(out) =>
      if out.status == BadArguments then Abort
      else if out.session.open && !out.session.unrecoverable then
        (match UpdateEvent(out.session, q)
         case Proceed(t) => Proceed(HandleOut(t, out.fed))
         case Abort => Abort)
      else
        Proceed(HandleOut(out.session, out.fed))
  }

  /** `Keeper::Impl::HandleEvent(events)` as intended: the same, except that
      it re-arms only when no wait is outstanding after processing, so a
      callback that reopened the session (and so armed a wait of its own)
      does not leave two waits armed. */
  function HandleEvent(s: Session, events: bv32, p: ProcessReply, q: InterestReply): (r: Exec<HandleOut>)
    requires s.pending != []
    ensures s.open && NoReopen(p.callbacks) ==> var after := Process(s.(pending := s.pending[1..]), InterestOf(events), p).value.session;
      (r.Abort? <==>
        || p.status == BadArguments
        || (after.open && !after.unrecoverable && after.pending == [] && q.status == BadArguments))
    ensures r.Proceed? && s.open ==> r.value.fed == Some(InterestOf(events))
    ensures r.Proceed? && !s.open ==> r.value.fed == None
    ensures r.Proceed? ==> Process(s.(pending := s.pending[1..]), InterestOf(events), p).Proceed?
    ensures r.Proceed? ==> var after := Process(s.(pending := s.pending[1..]), InterestOf(events), p).value.session;
      if after.open && !after.unrecoverable && after.pending == []
      then UpdateEvent(after, q).Proceed? && r.value.session == UpdateEvent(after, q).value
      else r.value.session == after
    ensures Inv(s) && r.Proceed? ==> Inv(r.value.session)
    ensures Inv(s) && NoReopen(p.callbacks) && r.Proceed? ==> var t := r.value.session;
      t.armed == s.armed + (if t.open && !t.unrecoverable then 1 else 0)
  {
    var fired := s.(pending := s.pending[1..]);
    match Process(fired, InterestOf(events), p)
    case Abort => Abort
    case Proceed(out) =>
      if out.status == BadArguments then Abort
      else if out.session.open && !out.session.unrecoverable && out.session.pending == [] then
        (match UpdateEvent(out.session, q)
         case Proceed(t) => Proceed(HandleOut(t, out.fed))
         case Abort => Abort)
      else
        Proceed(HandleOut(out.session, out.fed))
  }

  /** When no callback reopens the session and the fired wait was the only
      one, the written and the intended `HandleEvent` agree. */
  lemma HandleEventAgreesWithoutReopen(s: Session, events: bv32, p: ProcessReply, q: InterestReply)
    requires Inv(s) && s.pending != [] && NoReopen(p.callbacks)
    ensures HandleEvent(s, events, p, q) == HandleEventAsWritten(s, events, p, q)
  {
  }

  /** A completion that closes and reopens the adapter while the engine
      processes a firing: the written `HandleEvent` leaves two waits armed,
      breaking the invariant; the intended one leaves one. */
  lemma ReopenDuringProcessingArmsTwice()
    ensures var s := Session(true, false, false, false, map[], map[], [Wait(3, 1, 1000)], 1);
      var q := InterestReply(Ok, 3, 2, 1000);
      var p := ProcessReply(Ok, false, [DoClose, DoOpen(0, Handle, q)]);
      && Inv(s)
      && HandleEventAsWritten(s, 1, p, q).Proceed?
      && HandleEventAsWritten(s, 1, p, q).value.session.armed == 3
      && |HandleEventAsWritten(s, 1, p, q).value.session.pending| == 2
      && !Inv(HandleEventAsWritten(s, 1, p, q).value.session)
      && HandleEvent(s, 1, p, q).Proceed?
      && HandleEvent(s, 1, p, q).value.session.armed == 2
      && Inv(HandleEvent(s, 1, p, q).value.session)
  {
  }

  /** A closed session answers every observer without the engine: zero
      timeout, and `InvalidState` from `Interest` and `Process`. */
  lemma ClosedSessionObservers(s: Session, negotiated: int, q: InterestReply, p: ProcessReply, interest: bv32)
    requires !s.open
    ensures Timeout(s, negotiated) == 0
    ensures !Interest(s, q, -1, 0, 0).queried && Interest(s, q, -1, 0, 0).status == InvalidState
    ensures Process(s, interest, p) == Proceed(ProcessOut(InvalidState, s, None))
  {
  }

  /** `Close` drops the listener, so a session opened again after a close
      never gets the session watcher. */
  lemma ReopenWithoutSessionWatch(s: Session, timeout: int, q: InterestReply)
    requires s.open && timeout >= 0
    ensures var r := Open(Close(s), timeout, Handle, q);
      r.Proceed? ==> !r.value.1.sessionWatch
  {
  }

  /** Closing twice is closing once. */
  lemma CloseIdempotent(s: Session)
    ensures Close(Close(s)) == Close(s)
  {
  }
}
