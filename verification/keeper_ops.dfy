/** The operations of `Keeper::Impl`. All ten single-node operations share
    one template:
      1. a closed session fails the callback at once with `InvalidState`,
         and nothing reaches the engine;
      2. otherwise the request goes to the engine with a completion wrapper
         owning the callback;
      3. a submission the engine refuses fails the callback at once with
         the engine's status, and the wrapper is destroyed;
      4. an accepted submission hands the wrapper over to the engine, and
         the callback is not called now. A watched operation (`Exists`,
         `Get`, `GetChildren`, `GetChildrenWithStat`) also appends its
         watcher to the node or child registry, but only in this case.
    `Multi` follows the same template and builds one result slot per
    sub-operation before submitting. */
module KeeperOps {
  import opened Wrappers
  import opened KeeperState
  import WatchRegistry

  datatype Acl = Acl(perms: int, scheme: string, id: string)

  /** One request, with its parameters. */
  datatype Request =
    | AddAuth(scheme: string, cert: string)
    | Create(path: Path, value: string, acls: seq<Acl>, mode: int)
    | Delete(path: Path, version: int)
    | Exists(path: Path, watcher: Watcher)
    | Get(path: Path, watcher: Watcher)
    | Set(path: Path, value: string, version: int)
    | GetAcl(path: Path)
    | SetAcl(path: Path, acls: seq<Acl>, version: int)
    | GetChildren(path: Path, watcher: Watcher)
    | GetChildrenWithStat(path: Path, watcher: Watcher)

  /** The watched operations that register on the node registry. */
  predicate WatchesNode(req: Request) {
    req.Exists? || req.Get?
  }

  /** The watched operations that register on the child registry. */
  predicate WatchesChildren(req: Request) {
    req.GetChildren? || req.GetChildrenWithStat?
  }

  /** A sub-operation of a batch. Its classes are not part of this model:
      each knows its kind and its path. */
  datatype SubOp = SubOp(kind: string, path: Path)

  /** The native form of a sub-operation (`zoo_op_t`). */
  datatype NativeOp = NativeOp(op: SubOp)

  /** The slot that will receive a sub-operation's result (`Op::Result`). */
  datatype Slot = Slot(op: SubOp)

  /** `Op::MakeResult`: fills in the native op and yields its result slot. */
  function MakeResult(op: SubOp): (NativeOp, Slot) {
    (NativeOp(op), Slot(op))
  }

  /** What reaches the engine: a single request, with the native watcher
      installed or not, or a batch. */
  datatype Submission =
    | Single(request: Request, nativeWatch: bool)
    | Batch(ops: seq<NativeOp>)

  /** The native call a request makes. The native watcher is installed only
      for a non-empty watcher. */
  function SubmissionOf(req: Request): (r: Submission)
    ensures r.Single? && r.request == req
    ensures r.nativeWatch <==> (WatchesNode(req) || WatchesChildren(req)) && req.watcher.Watcher?
  {
    match req
    case Exists(_, w) => Single(req, w.Watcher?)
    case Get(_, w) => Single(req, w.Watcher?)
    case GetChildren(_, w) => Single(req, w.Watcher?)
    case GetChildrenWithStat(_, w) => Single(req, w.Watcher?)
    case _ => Single(req, false)
  }

  /** The result of one call:
      - `session`: the adapter afterwards;
      - `immediate`: the statuses the callback received before the call
        returned;
      - `submitted`: what was handed to the engine, if anything;
      - `handedOff`: whether the engine now owns the callback wrapper. */
  datatype CallOutcome = CallOutcome(
    session: Session,
    immediate: seq<Status>,
    submitted: Option<Submission>,
    handedOff: bool)

  /** The callback is accounted for exactly once: called right away, or
      owned by the engine, never both and never neither. */
  predicate ExactlyOnce(r: CallOutcome) {
    |r.immediate| + (if r.handedOff then 1 else 0) == 1
  }

  /** The registry update of an accepted request: watched requests append
      their watcher (even an empty one) to their registry under their path. */
  function Register(s: Session, req: Request): (r: Session)
    ensures WatchesNode(req) ==> r == s.(nodeWatchers := WatchRegistry.Append(s.nodeWatchers, req.path, req.watcher))
    ensures WatchesChildren(req) ==> r == s.(childWatchers := WatchRegistry.Append(s.childWatchers, req.path, req.watcher))
    ensures !WatchesNode(req) && !WatchesChildren(req) ==> r == s
  {
    match req
    case Exists(p, w) => s.(nodeWatchers := WatchRegistry.Append(s.nodeWatchers, p, w))
    case Get(p, w) => s.(nodeWatchers := WatchRegistry.Append(s.nodeWatchers, p, w))
    case GetChildren(p, w) => s.(childWatchers := WatchRegistry.Append(s.childWatchers, p, w))
    case GetChildrenWithStat(p, w) => s.(childWatchers := WatchRegistry.Append(s.childWatchers, p, w))
    case _ => s
  }

  /** The shared template of `AddAuth`, `Create`, `Delete`, `Exists`, `Get`,
      `Set`, `GetAcl`, `SetAcl`, `GetChildren` and `GetChildrenWithStat`;
      `submit` is the status the engine's submission function returns. */
  function Call(s: Session, req: Request, submit: Status): (r: CallOutcome)
    ensures ExactlyOnce(r)
    ensures !s.open ==> r.immediate == [InvalidState] && r.submitted == None && r.session == s
    ensures s.open ==> r.submitted == Some(SubmissionOf(req))
    ensures s.open && submit != Ok ==> r.immediate == [submit] && r.session == s
    ensures r.handedOff <==> s.open && submit == Ok
    ensures r.handedOff ==> r.immediate == [] && r.session == Register(s, req)
    ensures r.session.open == s.open && r.session.pending == s.pending && r.session.armed == s.armed
    ensures Inv(s) ==> Inv(r.session)
    ensures ProcessingInv(s) ==> ProcessingInv(r.session)
  {
    if !s.open then CallOutcome(s, [InvalidState], None, false)
    else if submit == Ok then CallOutcome(Register(s, req), [], Some(SubmissionOf(req)), true)
    else CallOutcome(s, [submit], Some(SubmissionOf(req)), false)
  }

  /** The loop of `Multi`: one native op and one result slot per
      sub-operation, in order. */
  method BuildBatch(ops: seq<SubOp>) returns (zops: seq<NativeOp>, results: seq<Slot>)
    ensures |zops| == |ops| && |results| == |ops|
    ensures forall i | 0 <= i < |ops| :: (zops[i], results[i]) == MakeResult(ops[i])
  {
    zops := [];
    results := [];
    var idx := 0;
    while idx < |ops|
      invariant 0 <= idx <= |ops|
      invariant |zops| == idx && |results| == idx
      invariant forall i | 0 <= i < idx :: (zops[i], results[i]) == MakeResult(ops[i])
    {
      var (zop, result) := MakeResult(ops[idx]);
      zops := zops + [zop];
      results := results + [result];
      idx := idx + 1;
    }
  }

  /** `Keeper::Impl::Multi`: the shared template around a batch. On an open
      session it builds exactly one slot per sub-operation, in order, and
      submits them as one batch; the slots are what it returns here. */
  method Multi(s: Session, ops: seq<SubOp>, submit: Status) returns (r: CallOutcome, slots: seq<Slot>)
    ensures ExactlyOnce(r)
    ensures !s.open ==> r.immediate == [InvalidState] && r.submitted == None && slots == []
    ensures s.open ==> |slots| == |ops| && forall i | 0 <= i < |ops| :: slots[i] == MakeResult(ops[i]).1
    ensures s.open ==> r.submitted == Some(Batch(seq(|ops|, i requires 0 <= i < |ops| => MakeResult(ops[i]).0)))
    ensures s.open && submit != Ok ==> r.immediate == [submit]
    ensures r.handedOff <==> s.open && submit == Ok
    ensures r.handedOff ==> r.immediate == []
    ensures r.session == s
  {
    if !s.open {
      return CallOutcome(s, [InvalidState], None, false), [];
    }
    var zops;
    zops, slots := BuildBatch(ops);
    assert zops == seq(|ops|, i requires 0 <= i < |ops| => MakeResult(ops[i]).0);
    var batch := Batch(zops);
    if submit == Ok {
      r := CallOutcome(s, [], Some(batch), true);
    } else {
      r := CallOutcome(s, [submit], Some(batch), false);
    }
  }

  /** On a closed session (for instance after `Close`), every request fails
      at once with `InvalidState` and never reaches the engine. */
  lemma ClosedSessionRejects(s: Session, req: Request, submit: Status)
    requires !s.open
    ensures Call(s, req, submit) == CallOutcome(s, [InvalidState], None, false)
  {
  }

  /** Registries are touched only by accepted watched requests, and then
      only under the request's own path. */
  lemma RegistryFrame(s: Session, req: Request, submit: Status, p: Path)
    requires !(s.open && submit == Ok) || !(WatchesNode(req) || WatchesChildren(req)) || p != req.path
    ensures var t := Call(s, req, submit).session;
      && WatchRegistry.WatchersOf(t.nodeWatchers, p) == WatchRegistry.WatchersOf(s.nodeWatchers, p)
      && WatchRegistry.WatchersOf(t.childWatchers, p) == WatchRegistry.WatchersOf(s.childWatchers, p)
  {
  }

  /** Requests that are not watched never touch either registry, accepted
      or not. */
  lemma UnwatchedLeavesRegistries(s: Session, req: Request, submit: Status)
    requires !WatchesNode(req) && !WatchesChildren(req)
    ensures Call(s, req, submit).session == s
  {
  }

  /** An accepted `Exists` or `Get` puts its watcher last on its path's node
      list and leaves the child registry alone. */
  lemma AcceptedNodeWatchAppends(s: Session, req: Request)
    requires s.open && WatchesNode(req)
    ensures var t := Call(s, req, Ok).session;
      && WatchRegistry.WatchersOf(t.nodeWatchers, req.path)
         == WatchRegistry.WatchersOf(s.nodeWatchers, req.path) + [req.watcher]
      && t.childWatchers == s.childWatchers
  {
  }

  /** An accepted `GetChildren` or `GetChildrenWithStat` puts its watcher
      last on its path's child list and leaves the node registry alone. */
  lemma AcceptedChildWatchAppends(s: Session, req: Request)
    requires s.open && WatchesChildren(req)
    ensures var t := Call(s, req, Ok).session;
      && WatchRegistry.WatchersOf(t.childWatchers, req.path)
         == WatchRegistry.WatchersOf(s.childWatchers, req.path) + [req.watcher]
      && t.nodeWatchers == s.nodeWatchers
  {
  }
}
