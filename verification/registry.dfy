/** The per-collection lock registry of the driver, as a map only: a lock is
    represented by its identity, and blocking is not modelled. */
module Locks {

  /** The identity of one `sync.Mutex` value. */
  type LockId = nat

  /** `locks` is the driver's `mutexes` map; `next` is the identity the next
      freshly allocated lock receives. */
  datatype Registry = Registry(locks: map<string, LockId>, next: LockId) {

    /** Every registered lock was allocated before `next`. */
    predicate Valid() {
      forall name :: name in locks ==> locks[name] < next
    }

    /** No two collections share a lock. */
    predicate Distinct() {
      forall a, b :: a in locks && b in locks && a != b ==> locks[a] != locks[b]
    }
  }

  /** The registry a new driver starts with. */
  function Empty(): (r: Registry)
    ensures r.Valid() && r.Distinct() && r.locks == map[]
  {
    Registry(map[], 0)
  }

  /** Every entry of `r` is still present, with the same lock, in `r'`. */
  predicate Extends(r: Registry, r': Registry) {
    forall name :: name in r.locks ==> name in r'.locks && r'.locks[name] == r.locks[name]
  }

  /** getOrCreateMutex: the lock registered for `name`, registering a freshly
      allocated one when there is none. */
  function Acquire(reg: Registry, name: string): (res: (Registry, LockId))
    ensures name in res.0.locks && res.0.locks[name] == res.1
    ensures name in reg.locks ==> res.0 == reg
    ensures name !in reg.locks ==> res.0.locks == reg.locks[name := res.1]
    ensures Extends(reg, res.0)
    ensures reg.Valid() ==> res.0.Valid()
    ensures reg.Valid() && name !in reg.locks ==> res.1 !in reg.locks.Values
  {
    if name in reg.locks then (reg, reg.locks[name])
    else (Registry(reg.locks[name := reg.next], reg.next + 1), reg.next)
  }

  /** Asking again for the same name returns the same lock and changes nothing. */
  lemma AcquireIdempotent(reg: Registry, name: string)
    ensures Acquire(Acquire(reg, name).0, name) == Acquire(reg, name)
  {
  }

  /** Registering other names never replaces the lock of `name`. */
  lemma AcquireKeepsIdentity(reg: Registry, name: string, other: string)
    requires name in reg.locks
    ensures Acquire(Acquire(reg, other).0, name).1 == Acquire(reg, name).1
  {
  }

  /** A valid registry hands out a different lock to every collection. */
  lemma AcquirePreservesDistinct(reg: Registry, name: string)
    requires reg.Valid() && reg.Distinct()
    ensures Acquire(reg, name).0.Distinct()
  {
  }
}
