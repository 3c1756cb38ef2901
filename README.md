# Resource pool, modelled and proved in Dafny

This project models `pool.go`, a bounded pool that lets goroutines share a
small number of resources that are costly to create (`io.Closer` values such
as connections). The Go `Pool` holds four things:

- a buffered channel `resources` of idle resources, with capacity `size`;
- a `closed` flag;
- a `factory` that creates a resource when none is idle;
- a mutex that makes Release and Close exclusive.

Its operations are:

- `New` refuses a size of zero.
- `Acquire` returns the oldest idle resource. If there is none it calls the
  factory. Once the channel has been closed it reports `ErrPoolClosed`.
- `Release` puts a resource back into the channel if there is room. If the
  channel is full, or the pool is closed, it closes the resource instead.
- `Close` is idempotent. It marks the pool closed, closes the channel, and
  closes every resource that was still in it.

The model has two modules. Their operations run one after the other, so
the mutex is gone.

- `PoolMachine` (`pool_machine.dfy`) is the pool as a state machine over
  values. A `State` holds the channel's capacity, its contents (oldest first)
  and the closed flag. `Inv` is the pool's invariant: the capacity is
  positive, the buffer never holds more than the capacity, and a closed pool
  holds nothing. Each operation is a function from one `State` to the next.
  It also returns what the caller gets back and which resources were closed.
  `Exec` runs a whole sequence of operations. It records the factory calls,
  the results of Acquire, and the log of closed resources. The lemmas about
  `Exec` are the properties of whole runs:
  - Conservation: the buffered, handed-out and closed resources grow by
    exactly what is released plus what the factory makes (`Conservation`).
    As long as the caller only releases resources it holds, no resource
    appears or disappears except those the factory makes
    (`OwnedConservation`). `Owned` states that condition, and `HeldAfter`
    tracks what the caller holds.
  - No resource is closed twice, however often it is reused. This holds as
    long as the caller only releases resources it holds, every resource
    starts out in one place, and the factory only makes new resources
    (`NeverClosedTwice`).
  - A closed pool stays frozen.
  - Idle resources come back in FIFO order before the factory is called. A
    buffered resource stays buffered until an Acquire returns it, as long
    as no Close comes in between.
- `ResourcePool` (`resource_pool.dfy`) is the pool as the Go code has it: a
  class `Pool` whose methods update its fields in place, with `Close`
  draining the buffer in a loop. Each method is proved to move the object
  exactly as the matching `PoolMachine` function moves a `State`, so each
  method call matches one `Step`. The lemmas about runs carry over to a
  sequence of calls on one `Pool`, as long as only this pool calls its
  factory. No member proves that composition for a `Pool` object, and the
  object keeps no history of results. Closing a resource appends
  it to the ghost field `closedLog`. The factory is a `Factory` object whose
  n-th call returns `produce(n)`. Three client methods
  (`ScenarioCapacityOne`, `ScenarioCapacityTwo`, `ScenarioAfterClose`) go
  through typical uses of the pool. They check each step using
  only the methods' contracts.

`Acquire` never reads the `closed` flag, so one might expect it to fall
through to the factory on a pool that is already closed. It does not.
`Close` closes the channel (pool.go:89). A receive from a closed, drained
channel is always ready and yields `ok == false` (pool.go:38-40). So a
sequential `Acquire` after `Close` always returns `ErrPoolClosed` and never
calls the factory, and the model says so. As in Go, a receive still yields
buffered resources first; the invariant guarantees there are none once the
pool is closed.

## Model

| member | source | states |
|---|---|---|
| PoolMachine.NewState | pool.go:23-31 | New fails with InvalidSize exactly when size is 0. Otherwise it gives an open pool with an empty buffer of capacity `size` that satisfies the invariant. |
| PoolMachine.AcquireStep | pool.go:35-47 | The factory is called exactly when the buffer is empty and the pool is open, and its result is returned unchanged with the state untouched. Otherwise the oldest buffered resource is returned and the buffer becomes its tail, or on a closed, empty pool PoolClosed is returned and nothing changes. The invariant is preserved. |
| PoolMachine.ReleaseStep | pool.go:51-71 | The new buffer followed by the closed resources equals the old buffer followed by r. Nothing is closed exactly when the pool is open and the buffer has room. Otherwise only r is closed and the buffer is unchanged. The invariant is preserved, so the buffer never exceeds capacity. |
| PoolMachine.CloseStep | pool.go:74-95 | Afterwards the pool is closed and empty. On an open pool the closed resources are exactly the old buffer, oldest first. On a closed pool nothing is closed. |
| PoolMachine.CloseIdempotent | pool.go:78-82 | A second Close changes nothing and closes nothing. |
| PoolMachine.Step | pool.go:35-95 | One operation keeps the invariant and the capacity, never reopens a closed pool, and calls the factory at most once. |
| PoolMachine.Exec | pool.go:35-95 | A whole run keeps the invariant and the capacity, never reopens a closed pool, and never lowers the factory call count. |
| PoolMachine.Conservation | pool.go:37-94 | Over any run, the buffered, handed-out and closed resources grow by exactly the resources released to the pool plus those the factory made. |
| PoolMachine.OwnedConservation | pool.go:37-94 | Over any run in which the caller only releases resources it holds, the idle, held and closed resources together grow by exactly the resources the factory made. This holds however often a resource goes round. |
| PoolMachine.ClosedAtMostOnce | pool.go:56-70 | Take a run in which the caller only releases resources it holds, and a resource that occurs at most once in total, counting where it is at the start (idle, held or closed) and the times the factory makes it in the run. The pool closes that resource at most once, even if it was acquired and released many times. |
| PoolMachine.NeverClosedTwice | pool.go:56-94 | Suppose every resource starts in one place and the factory makes only new resources. Then, in any run in which the caller only releases what it holds, every resource ends in exactly one place, and the log of closed resources has no duplicates. |
| PoolMachine.ClosedIsFinal | pool.go:38-41 | After Close the pool stays closed and empty, and the factory is never called again. Every Acquire returns PoolClosed and every released resource is closed, in order. |
| PoolMachine.CloseThenClosed | pool.go:86-94 | Any run that contains a Close ends with the pool closed and empty. |
| PoolMachine.FactoryCallsBounded | pool.go:44-46 | Each Acquire gives exactly one result. The factory is called at most once per Acquire, and never by Release or Close. |
| PoolMachine.AcquireDrainsFifo | pool.go:37-42 | On an open pool, as many Acquires as there are buffered resources return them oldest first, without calling the factory, and leave the buffer empty. |
| PoolMachine.ReleaseThenReuse | pool.go:62-65 | A resource released into an open pool with room comes back from Acquire. It comes after the resources buffered before it and before the factory makes anything. |
| PoolMachine.BufferedComesBackFirst | pool.go:37-46 | In any run without Close, with other Releases and Acquires mixed in, a buffered resource that no Acquire has returned yet is still buffered, and the factory has not been called. So idle resources are reused before new ones are made. |
| ResourcePool.Factory.Create | pool.go:17 | The n-th call of the factory returns produce(n) and counts the call. |
| ResourcePool.Pool.constructor | pool.go:28-31 | A new pool is open, has an empty buffer of the given capacity, and keeps the given factory. |
| ResourcePool.New | pool.go:23-31 | Returns InvalidSize exactly when size is 0. Otherwise returns a fresh valid pool matching NewState, with that factory and nothing closed. |
| ResourcePool.Pool.Acquire | pool.go:35-47 | Moves the pool as AcquireStep does, using the factory's next result. Taking a buffered resource calls no factory. On an open, empty pool the factory is called once and its result returned. On a closed pool it returns PoolClosed. It closes nothing. |
| ResourcePool.Pool.Release | pool.go:51-71 | Moves the pool as ReleaseStep does. It appends r when the pool is open and has room. It closes r once and leaves the buffer unchanged when the pool is full or closed. |
| ResourcePool.Pool.Close | pool.go:74-95 | Moves the pool as CloseStep does. The drain loop closes every buffered resource once, oldest first, and leaves the pool closed and empty. A second Close closes nothing. |

## Left out

- The `sync.Mutex` in Release and Close (pool.go:53-54, 75-76) and every interleaving of goroutines: the model is sequential, so the race in which an Acquire overlaps a Close is not modelled.
- The channel's own closed state is not a separate field: `Close` sets `closed` and closes the channel together under the lock (pool.go:86-89), so the model reads both from `closed`.
- The `log.Println` calls (pool.go:45, 65, 68, 80, 85): output only.
- The error that `io.Closer.Close` returns, which the code ignores (pool.go:58, 69, 93): closing a resource is recorded by appending it to `closedLog`.
- The factory's own side effects, such as opening a connection: the factory is modelled only by the sequence of results its calls return.
- The factory's two return values (pool.go:17, 46): Acquire passes the `(io.Closer, error)` pair through unchanged. `Result<Resource>` holds either a resource or an error. So a factory that returns both a resource and an error, or neither, is not modelled. Nor is a nil `io.Closer`: `Resource` always stands for a real resource. In Go, `Release(nil)` on an open pool with room buffers nil, so a later Acquire returns `(nil, nil)` (pool.go:64, 42). Closing a nil resource panics (pool.go:58, 69, 93).
- A caller that releases a resource it does not hold, or releases one twice, can make the pool close that resource twice; the Go code does not guard against this. `ClosedAtMostOnce` and `NeverClosedTwice` therefore assume `Owned`: every Release gives back a resource the caller holds.
- The error message texts (pool.go:12, 25): the model only tells InvalidSize, PoolClosed and a factory's own error apart.
- `size` is a Go `uint`; the model takes it as a `nat`. A size too large for `make` to allocate, which makes Go panic, is not modelled.
