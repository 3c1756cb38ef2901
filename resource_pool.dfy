/** The Pool of pool.go as a class whose methods update its fields in place.

    Each method is proved to move the object exactly as the corresponding
    function of PoolMachine moves a State, so each call matches one Step of
    a run, as long as only this pool calls its factory. */
module ResourcePool {
  import opened PoolMachine

  /** The user's factory function.  Its n-th call (counting from 0) returns
      produce(n), so any sequence of fresh resources and errors can be
      described; `calls` counts the calls made so far. */
  class Factory {
    const produce: nat -> Result<Resource>
    var calls: nat

    constructor (produce: nat -> Result<Resource>)
      ensures this.produce == produce && calls == 0
    {
      this.produce := produce;
      calls := 0;
    }

    method Create() returns (r: Result<Resource>)
      modifies this
      ensures r == produce(old(calls)) && calls == old(calls) + 1
    {
      r := produce(calls);
      calls := calls + 1;
    }
  }

  class Pool {
    /** The capacity of the channel `resources`. */
    const capacity: nat
    /** The contents of the channel `resources`, oldest first. */
    var buffer: seq<Resource>
    var closed: bool
    const factory: Factory
    /** Every resource this pool has closed, in the order it closed them. */
    ghost var closedLog: seq<Resource>

    function Model(): State
      reads this
    {
      State(capacity, buffer, closed)
    }

    ghost predicate Valid()
      reads this
    {
      Inv(Model())
    }

    /** The struct literal of New: an open pool over an empty channel. */
    constructor (fn: Factory, size: nat)
      requires 0 < size
      ensures Valid() && Model() == State(size, [], false)
      ensures factory == fn && closedLog == []
    {
      capacity := size;
      buffer := [];
      closed := false;
      factory := fn;
      closedLog := [];
    }

    /** Hands out the oldest idle resource, or reports PoolClosed on a closed
        (and therefore drained) pool, or returns whatever the factory
        returns when the pool is open and has nothing idle. */
    method Acquire() returns (res: Result<Resource>)
      requires Valid()
      modifies this, factory
      ensures Valid() && closedLog == old(closedLog)
      ensures var a := AcquireStep(old(Model()), factory.produce(old(factory.calls)));
              Model() == a.next && res == a.result &&
              factory.calls == old(factory.calls) + (if a.factoryCalled then 1 else 0)
      ensures old(buffer) != [] ==>
                res == Success(old(buffer)[0]) && buffer == old(buffer)[1..] &&
                factory.calls == old(factory.calls)
      ensures old(buffer) == [] && !old(closed) ==>
                res == factory.produce(old(factory.calls)) && buffer == [] && !closed &&
                factory.calls == old(factory.calls) + 1
      ensures old(closed) ==>
                res == Failure(PoolClosed) && buffer == [] && factory.calls == old(factory.calls)
    {
      if buffer != [] {
        res := Success(buffer[0]);
        buffer := buffer[1..];
      } else if closed {
        // a receive on the closed, drained channel reports !ok
        res := Failure(PoolClosed);
      } else {
        // the select falls to its default case
        res := factory.Create();
      }
    }

    /** Takes a resource back: buffers it when the pool is open and the
        channel has room, closes it otherwise. */
    method Release(r: Resource)
      requires Valid()
      modifies this
      ensures Valid() && closed == old(closed)
      ensures var o := ReleaseStep(old(Model()), r);
              Model() == o.next && closedLog == old(closedLog) + o.discarded
      ensures old(closed) ==> buffer == old(buffer) && closedLog == old(closedLog) + [r]
      ensures !old(closed) && |old(buffer)| < capacity ==>
                buffer == old(buffer) + [r] && closedLog == old(closedLog)
      ensures !old(closed) && |old(buffer)| == capacity ==>
                buffer == old(buffer) && closedLog == old(closedLog) + [r]
    {
      if closed {
        closedLog := closedLog + [r];
        return;
      }
      if |buffer| < capacity {
        buffer := buffer + [r];
      } else {
        closedLog := closedLog + [r];
      }
    }

    /** Shuts the pool down: marks it closed, then drains the channel,
        closing every resource in it, oldest first.  A second call does
        nothing. */
    method Close()
      requires Valid()
      modifies this
      ensures Valid() && closed && buffer == []
      ensures var o := CloseStep(old(Model()));
              Model() == o.next && closedLog == old(closedLog) + o.discarded
      ensures closedLog == old(closedLog) + (if old(closed) then [] else old(buffer))
    {
      if closed {
        return;
      }
      closed := true;
      while buffer != []
        invariant closed && |buffer| <= capacity
        invariant closedLog + buffer == old(closedLog) + old(buffer)
        decreases |buffer|
      {
        var r := buffer[0];
        buffer := buffer[1..];
        closedLog := closedLog + [r];
        assert closedLog + buffer == old(closedLog) + old(buffer) by {
          assert (closedLog[..|closedLog| - 1] + [r]) + buffer == closedLog[..|closedLog| - 1] + ([r] + buffer);
        }
      }
    }
  }

  /** New: refuses a size of zero; otherwise returns an open pool over an
      empty channel of that capacity, using the given factory. */
  method New(fn: Factory, size: nat) returns (p: Result<Pool>)
    ensures p.Success? <==> NewState(size).Success?
    ensures p.Failure? ==> p.error == InvalidSize
    ensures p.Success? ==>
              fresh(p.value) && p.value.Valid() && p.value.Model() == NewState(size).value &&
              p.value.factory == fn && p.value.closedLog == []
  {
    if size == 0 {
      return Failure(InvalidSize);
    }
    var pool := new Pool(fn, size);
    return Success(pool);
  }

  /** The scenario with capacity 1: two resources are made, the first is
      buffered on release and the second is closed because the buffer is full. */
  method ScenarioCapacityOne()
  {
    var f := new Factory((n: nat) => Success(Resource(n + 1)));
    var made := New(f, 1);
    var p := made.value;
    var r1 := p.Acquire();
    var r2 := p.Acquire();
    assert r1 == Success(Resource(1)) && r2 == Success(Resource(2));
    p.Release(r1.value);
    p.Release(r2.value);
    assert p.buffer == [Resource(1)] && p.closedLog == [Resource(2)];
    assert f.calls == 2;
  }

  /** The scenario with capacity 2: both resources are buffered, one is
      reused without a factory call, and Close closes the other. */
  method ScenarioCapacityTwo()
  {
    var f := new Factory((n: nat) => Success(Resource(n + 1)));
    var made := New(f, 2);
    var p := made.value;
    var r1 := p.Acquire();
    var r2 := p.Acquire();
    p.Release(r1.value);
    p.Release(r2.value);
    assert p.buffer == [Resource(1), Resource(2)];
    var r3 := p.Acquire();
    assert r3 == Success(Resource(1)) && f.calls == 2 && p.buffer == [Resource(2)];
    p.Close();
    assert p.closedLog == [Resource(2)] && p.buffer == [];
  }

  /** After Close: a second Close closes nothing, Acquire is refused without
      calling the factory, and a released resource is closed at once. */
  method ScenarioAfterClose(r: Resource, late: Resource)
  {
    var f := new Factory((n: nat) => Failure(CreateFailed("connection refused")));
    var made := New(f, 2);
    var p := made.value;
    p.Release(r);
    p.Close();
    assert p.closedLog == [r];
    p.Close();
    assert p.closedLog == [r];
    var got := p.Acquire();
    assert got == Failure(PoolClosed) && f.calls == 0;
    p.Release(late);
    assert p.closedLog == [r, late] && p.buffer == [];
  }
}
