/** Every step of Retention is a call of the classes it stands for. */
module RetentionCalls {
  import opened Storage
  import opened SelfDestruct
  import opened Retention

  /** The objects hold what the world says. */
  ghost predicate Holds(worker: SelfDestructWorker, w: World)
    reads worker, worker.store, worker.storage
  {
    && worker.store.rows == w.rows && worker.storage.objects == w.objects
    && worker.audits == w.audits && worker.frames == w.frames
  }

  /** New keys and names are drawn fresh, and the query answers as it may. */
  ghost predicate Fresh(w: World, step: Step) {
    match step
    case StoreMedia(name, _) => name !in w.drawn
    case Save(id, _, _) => id !in w.rows
    case Sweep(batch, _, fail) => IsBatch(w.rows, w.now, batch) && (fail.Some? ==> fail.value.done <= |batch|)
    case _ => true
  }

  method Perform(worker: SelfDestructWorker, ghost w: World, now: int, step: Step)
    requires Holds(worker, w) && Fresh(w, step) && now == w.now
    modifies worker, worker.store, worker.storage
    ensures Holds(worker, Retention.Next(w, step))
  {
    match step {
      case Tick(_) =>
      case StoreMedia(name, data) =>
        worker.storage.PutObject(Named(name), data);
      case Save(id, draft, lag) =>
        var saved := worker.store.SaveMessage(id, draft, now, now + lag);
      case MarkDelivered(id, user, members) =>
        var row := worker.store.MarkDelivered(id, user, members, now);
      case MarkRead(id, user, members) =>
        var row := worker.store.MarkRead(id, user, members, now);
      case Unsend(id, user) =>
        var unsent := worker.store.Unsend(id, user, now);
      case Sweep(batch, outage, fail) =>
        var wiped := worker.SweepOnce(now, batch, outage, fail);
    }
  }
}
