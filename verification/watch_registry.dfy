/** A watch registry: path -> the watchers registered on it, oldest first. */
module WatchRegistry {
  import opened KeeperState

  type Registry = map<Path, seq<Watcher>>

  /** The watchers registered on `p` (none when `p` has no entry). */
  function WatchersOf(m: Registry, p: Path): seq<Watcher> {
    if p in m then m[p] else []
  }

  /** Looks the path up, creating an empty list if absent, and appends the
      watcher at the end; no other entry changes. */
  function Append(m: Registry, p: Path, w: Watcher): (r: Registry)
    ensures r.Keys == m.Keys + {p}
    ensures WatchersOf(r, p) == WatchersOf(m, p) + [w]
    ensures forall q | q != p :: WatchersOf(r, q) == WatchersOf(m, q)
  {
    m[p := WatchersOf(m, p) + [w]]
  }

  /** Watchers accumulate in registration order: registering `w1` and then
      `w2` on a path leaves them last on its list, `w1` first. */
  lemma AppendOrder(m: Registry, p: Path, w1: Watcher, w2: Watcher)
    ensures WatchersOf(Append(Append(m, p, w1), p, w2), p) == WatchersOf(m, p) + [w1, w2]
  {
  }

  /** Registering on another path leaves this path's list alone. */
  lemma AppendElsewhere(m: Registry, p: Path, q: Path, w: Watcher)
    requires q != p
    ensures WatchersOf(Append(m, q, w), p) == WatchersOf(m, p)
  {
  }
}
