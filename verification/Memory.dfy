/** Memory records, as the graph search and the context compiler see them (crates/igris-memory/src/lib.rs). */
module Memory {
  import opened Collections

  datatype MemoryRecord = MemoryRecord(
    id: Uuid,
    content: string,
    importance: real,
    deleted: bool,
    expiresAt: Option<int>)
  {
    predicate IsExpired(now: int) {
      expiresAt.Some? && expiresAt.value <= now
    }

    predicate IsLive(now: int) {
      !deleted && !IsExpired(now)
    }
  }
}
