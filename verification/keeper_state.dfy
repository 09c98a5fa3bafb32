/** The state of the coordination-service client adapter (`Keeper::Impl`)
    and the vocabulary its operations share. The native ZooKeeper engine is
    opaque: everything it decides arrives as a parameter. */
module KeeperState {

  type Path = string

  /** A ZooKeeper error code other than `ZOK` (0), `ZCONNECTIONLOSS` (-4),
      `ZBADARGUMENTS` (-8) and `ZINVALIDSTATE` (-9), which have constructors
      of their own. */
  type OtherCode = c: int | c != 0 && c != -4 && c != -8 && c != -9 witness -1

  /** Outcome codes. `NativeError` carries any other code the engine
      reports. */
  datatype Status = Ok | InvalidState | BadArguments | ConnectionLoss | NativeError(code: OtherCode)

  /** A user watcher; `NoWatcher` is an empty callback object. */
  datatype Watcher = NoWatcher | Watcher(id: nat)

  /** One wait armed on the host event loop: descriptor, event mask and
      timeout in microseconds. */
  datatype Wait = Wait(fd: int, events: bv32, timeoutMicros: nat)

  /** The adapter's state.
      - `open`: a native handle is held (`zh_ != NULL`);
      - `listener`: a session listener is installed (`listener_`);
      - `sessionWatch`: the open handle was initialised with the session
        watcher, which happens only when a listener was installed;
      - `unrecoverable`: the engine reports the session as unrecoverable;
      - `nodeWatchers`, `childWatchers`: the two watch registries;
      - `pending`: the waits armed on the event loop that have neither
        fired nor been cancelled, oldest first;
      - `armed`: how many waits have been armed so far. */
  datatype Session = Session(
    open: bool,
    listener: bool,
    sessionWatch: bool,
    unrecoverable: bool,
    nodeWatchers: map<Path, seq<Watcher>>,
    childWatchers: map<Path, seq<Watcher>>,
    pending: seq<Wait>,
    armed: nat)

  /** A freshly constructed adapter: closed, empty registries, no wait. */
  function NewSession(listener: bool): (s: Session)
    ensures !s.open && s.listener == listener && Inv(s)
  {
    Session(false, listener, false, false, map[], map[], [], 0)
  }

  /** The adapter's invariant between event-loop callbacks. At most one
      wait is outstanding. A closed session holds no watchers and no wait.
      An open session has exactly one wait armed while it is recoverable,
      and none once the engine has declared it unrecoverable. */
  predicate Inv(s: Session) {
    && |s.pending| <= 1
    && (!s.open ==> s.pending == [] && s.nodeWatchers == map[] && s.childWatchers == map[])
    && (s.open ==> (|s.pending| == 1 <==> !s.unrecoverable))
  }

  /** The weaker invariant that holds while the engine processes I/O: the
      fired wait has been consumed and may not have been replaced yet. */
  predicate ProcessingInv(s: Session) {
    && |s.pending| <= 1
    && (!s.open ==> s.pending == [] && s.nodeWatchers == map[] && s.childWatchers == map[])
    && (s.open && s.unrecoverable ==> s.pending == [])
  }
}
