/** The pool of pool.go as a sequential state machine over values.

    The mutex is gone (every operation runs to completion before the next one
    starts), so what is left is the buffered channel of idle resources, its
    capacity, and the closed flag.  Each operation is a function from the old
    state to the new one, together with what it hands back to the caller and
    which resources it closes.  The class in ResourcePool is proved to follow
    these functions; the lemmas at the end are about whole runs of them. */
module PoolMachine {

  /** An io.Closer handed to or taken from the pool.  The pool never looks
      inside one; it only keeps it, hands it out, or closes it. */
  datatype Resource = Resource(id: nat)

  /** The errors the pool reports.  CreateFailed stands for whatever error
      the user's factory returns; the pool passes it on unchanged. */
  datatype Error = InvalidSize | PoolClosed | CreateFailed(reason: string)

  datatype Result<+T> = Success(value: T) | Failure(error: Error)

  /** The channel `resources` (its capacity and its contents, oldest first)
      and the flag `closed`. */
  datatype State = State(capacity: nat, buffer: seq<Resource>, closed: bool)

  /** The buffer never holds more than its capacity, the capacity is
      positive, and a closed pool holds nothing. */
  ghost predicate Inv(s: State)
  {
    0 < s.capacity && |s.buffer| <= s.capacity && (s.closed ==> s.buffer == [])
  }

  /** What Acquire leaves behind, what it returns, and whether it called the factory. */
  datatype Acquired = Acquired(next: State, result: Result<Resource>, factoryCalled: bool)

  /** What Release or Close leaves behind and the resources it closed, in order. */
  datatype Effect = Effect(next: State, discarded: seq<Resource>)

  /** New: a size of zero (the only `size <= 0` a Go uint can have) is refused. */
  function NewState(size: nat): (r: Result<State>)
    ensures r.Success? <==> 0 < size
    ensures r.Failure? ==> r.error == InvalidSize
    ensures r.Success? ==> Inv(r.value) && r.value.capacity == size
                           && r.value.buffer == [] && !r.value.closed
  {
    if size == 0 then Failure(InvalidSize) else Success(State(size, [], false))
  }

  /** Acquire, given what the factory would return if it were called now.
      A receive on the channel yields the oldest buffered resource; on a
      closed and drained channel it reports that it is closed; on an open
      empty one the select falls to its default and calls the factory. */
  function AcquireStep(s: State, made: Result<Resource>): (a: Acquired)
    requires Inv(s)
    ensures Inv(a.next)
    ensures a.next.capacity == s.capacity && a.next.closed == s.closed
    ensures a.factoryCalled <==> s.buffer == [] && !s.closed
    ensures a.factoryCalled ==> a.result == made && a.next == s
    ensures !a.factoryCalled ==>
              (a.result.Success? <==> s.buffer != []) &&
              (a.result.Failure? ==> a.result.error == PoolClosed && a.next == s) &&
              (a.result.Success? ==> s.buffer == [a.result.value] + a.next.buffer)
  {
    if s.buffer != [] then
      Acquired(s.(buffer := s.buffer[1..]), Success(s.buffer[0]), false)
    else if s.closed then
      Acquired(s, Failure(PoolClosed), false)
    else
      Acquired(s, made, true)
  }

  /** Release(r): a closed pool closes r; an open pool buffers r when the
      channel has room and closes it otherwise. */
  function ReleaseStep(s: State, r: Resource): (o: Effect)
    requires Inv(s)
    ensures Inv(o.next)
    ensures o.next.capacity == s.capacity && o.next.closed == s.closed
    ensures o.next.buffer + o.discarded == s.buffer + [r]
    ensures o.discarded == [] <==> !s.closed && |s.buffer| < s.capacity
    ensures o.discarded != [] ==> o.discarded == [r] && o.next.buffer == s.buffer
  {
    if s.closed then Effect(s, [r])
    else if |s.buffer| < s.capacity then Effect(s.(buffer := s.buffer + [r]), [])
    else Effect(s, [r])
  }

  /** Close: on an open pool, mark it closed and close every buffered
      resource, oldest first; on a closed pool, do nothing. */
  function CloseStep(s: State): (o: Effect)
    requires Inv(s)
    ensures Inv(o.next)
    ensures o.next == s.(buffer := [], closed := true)
    ensures o.discarded == if s.closed then [] else s.buffer
  {
    if s.closed then Effect(s, []) else Effect(State(s.capacity, [], true), s.buffer)
  }

  /** A second Close performs no transition and closes nothing. */
  lemma CloseIdempotent(s: State)
    requires Inv(s)
    ensures CloseStep(CloseStep(s).next) == Effect(CloseStep(s).next, [])
  {
  }

  // ---------------------------------------------------------------------
  // Runs: sequences of operations on one pool
  // ---------------------------------------------------------------------

  datatype Op = AcquireOp | ReleaseOp(r: Resource) | CloseOp

  /** A pool together with its history: the number of factory calls so far,
      the results Acquire returned, and the resources the pool closed. */
  datatype Config = Config(pool: State, calls: nat, results: seq<Result<Resource>>,
                           closedLog: seq<Resource>)

  /** One operation.  The factory is the function `produce`: its n-th call
      (counting from 0) returns produce(n). */
  function Step(c: Config, op: Op, produce: nat -> Result<Resource>): (d: Config)
    requires Inv(c.pool)
    ensures Inv(d.pool) && d.pool.capacity == c.pool.capacity
    ensures c.pool.closed ==> d.pool.closed
    ensures c.calls <= d.calls <= c.calls + 1
  {
    match op
    case AcquireOp =>
      var a := AcquireStep(c.pool, produce(c.calls));
      Config(a.next, if a.factoryCalled then c.calls + 1 else c.calls,
             c.results + [a.result], c.closedLog)
    case ReleaseOp(r) =>
      var o := ReleaseStep(c.pool, r);
      Config(o.next, c.calls, c.results, c.closedLog + o.discarded)
    case CloseOp =>
      var o := CloseStep(c.pool);
      Config(o.next, c.calls, c.results, c.closedLog + o.discarded)
  }

  /** The operations one after the other. */
  function Exec(c: Config, ops: seq<Op>, produce: nat -> Result<Resource>): (d: Config)
    requires Inv(c.pool)
    ensures Inv(d.pool) && d.pool.capacity == c.pool.capacity
    ensures c.pool.closed ==> d.pool.closed
    ensures c.calls <= d.calls
    decreases |ops|
  {
    if ops == [] then c else Exec(Step(c, ops[0], produce), ops[1..], produce)
  }

  /** The resources the operations hand to Release, in order. */
  function Released(ops: seq<Op>): seq<Resource>
  {
    if ops == [] then []
    else (if ops[0].ReleaseOp? then [ops[0].r] else []) + Released(ops[1..])
  }

  lemma ReleasedOne(op: Op)
    ensures Released([op]) == if op.ReleaseOp? then [op.r] else []
  {
    assert [op][1..] == [];
  }

  /** How many of the operations are Acquire. */
  function Acquires(ops: seq<Op>): nat
  {
    if ops == [] then 0 else (if ops[0].AcquireOp? then 1 else 0) + Acquires(ops[1..])
  }

  /** The resources inside the successful results, in order. */
  function Delivered(results: seq<Result<Resource>>): seq<Resource>
  {
    if results == [] then []
    else
      var last := results[|results| - 1];
      Delivered(results[..|results| - 1]) + (if last.Success? then [last.value] else [])
  }

  /** The resources the factory made in its calls lo, ..., hi - 1. */
  function Created(produce: nat -> Result<Resource>, lo: nat, hi: nat): seq<Resource>
    decreases hi
  {
    if hi <= lo then []
    else Created(produce, lo, hi - 1) + (if produce(hi - 1).Success? then [produce(hi - 1).value] else [])
  }

  /** Every resource the pool has let go of or still holds. */
  function Balance(c: Config): multiset<Resource>
  {
    multiset(c.pool.buffer) + multiset(Delivered(c.results)) + multiset(c.closedLog)
  }

  lemma DeliveredSnoc(results: seq<Result<Resource>>, x: Result<Resource>)
    ensures Delivered(results + [x]) == Delivered(results) + (if x.Success? then [x.value] else [])
  {
    assert (results + [x])[..|results|] == results;
  }

  lemma {:induction false} CreatedSplit(produce: nat -> Result<Resource>, lo: nat, mid: nat, hi: nat)
    requires lo <= mid <= hi
    ensures Created(produce, lo, mid) + Created(produce, mid, hi) == Created(produce, lo, hi)
    decreases hi
  {
    if hi == mid {
    } else {
      CreatedSplit(produce, lo, mid, hi - 1);
    }
  }

  /** The multiset arithmetic of one Acquire: what leaves the buffer or
      comes from the factory is what the results gain. */
  lemma Rebalance(bag0: multiset<Resource>, bag1: multiset<Resource>, del0: multiset<Resource>,
                  del1: multiset<Resource>, log: multiset<Resource>, g: multiset<Resource>,
                  cr: multiset<Resource>)
    requires bag0 + cr == bag1 + g && del1 == del0 + g
    ensures bag1 + del1 + log == bag0 + del0 + log + cr
  {
    forall x ensures (bag1 + del1 + log)[x] == (bag0 + del0 + log + cr)[x] {
      assert (bag0 + cr)[x] == (bag1 + g)[x];
    }
  }

  /** Acquire changes the balance by the resource the factory made, if it was called. */
  lemma AcquireBalance(c: Config, produce: nat -> Result<Resource>)
    requires Inv(c.pool)
    ensures Balance(Step(c, AcquireOp, produce)) ==
            Balance(c) + multiset(Created(produce, c.calls, Step(c, AcquireOp, produce).calls))
  {
    var d := Step(c, AcquireOp, produce);
    var b := c.pool.buffer;
    var r := d.results[|c.results|];
    var g := if r.Success? then [r.value] else [];
    assert d.results == c.results + [r];
    DeliveredSnoc(c.results, r);
    if b != [] {
      assert d.pool.buffer == b[1..] && r == Success(b[0]);
      assert Created(produce, c.calls, d.calls) == [];
      assert b == g + b[1..];
    } else if c.pool.closed {
      assert Created(produce, c.calls, d.calls) == [] && g == [];
    } else {
      assert Created(produce, c.calls, d.calls) == g;
    }
    Rebalance(multiset(b), multiset(d.pool.buffer), multiset(Delivered(c.results)),
              multiset(Delivered(d.results)), multiset(c.closedLog), multiset(g),
              multiset(Created(produce, c.calls, d.calls)));
  }

  /** Release changes the balance by the released resource. */
  lemma ReleaseBalance(c: Config, r: Resource, produce: nat -> Result<Resource>)
    requires Inv(c.pool)
    ensures Balance(Step(c, ReleaseOp(r), produce)) == Balance(c) + multiset{r}
  {
    var o := ReleaseStep(c.pool, r);
    assert Step(c, ReleaseOp(r), produce) == Config(o.next, c.calls, c.results, c.closedLog + o.discarded);
    assert multiset(o.next.buffer) + multiset(o.discarded) == multiset(c.pool.buffer) + multiset{r} by {
      assert o.next.buffer + o.discarded == c.pool.buffer + [r];
    }
  }

  /** One operation changes the balance by exactly what it took in: the
      resource given to Release, or the one the factory made. */
  lemma StepBalance(c: Config, op: Op, produce: nat -> Result<Resource>)
    requires Inv(c.pool)
    ensures Balance(Step(c, op, produce)) ==
            Balance(c) + multiset(Released([op])) + multiset(Created(produce, c.calls, Step(c, op, produce).calls))
  {
    ReleasedOne(op);
    match op
    case AcquireOp => AcquireBalance(c, produce);
    case ReleaseOp(r) => ReleaseBalance(c, r, produce);
    case CloseOp =>
  }

  /** Conservation: whatever a run takes in (every resource released to the
      pool and every resource the factory made) ends up exactly once among
      the buffered, the handed-out and the closed resources. */
  lemma {:induction false} Conservation(c: Config, ops: seq<Op>, produce: nat -> Result<Resource>)
    requires Inv(c.pool)
    ensures Balance(Exec(c, ops, produce)) ==
            Balance(c) + multiset(Released(ops)) + multiset(Created(produce, c.calls, Exec(c, ops, produce).calls))
    decreases |ops|
  {
    if ops != [] {
      var d := Step(c, ops[0], produce);
      var e := Exec(d, ops[1..], produce);
      assert e == Exec(c, ops, produce);
      StepBalance(c, ops[0], produce);
      Conservation(d, ops[1..], produce);
      CreatedSplit(produce, c.calls, d.calls, e.calls);
      ReleasedOne(ops[0]);
      BagAlgebra(Balance(c), Balance(d), Balance(e),
                 multiset(Released([ops[0]])), multiset(Released(ops[1..])), multiset(Released(ops)),
                 multiset(Created(produce, c.calls, d.calls)), multiset(Created(produce, d.calls, e.calls)),
                 multiset(Created(produce, c.calls, e.calls)));
    }
  }

  /** The multiset arithmetic of one induction step of Conservation. */
  lemma BagAlgebra(b0: multiset<Resource>, b1: multiset<Resource>, b2: multiset<Resource>,
                   f1: multiset<Resource>, f2: multiset<Resource>, f: multiset<Resource>,
                   c1: multiset<Resource>, c2: multiset<Resource>, cr: multiset<Resource>)
    requires b1 == b0 + f1 + c1 && b2 == b1 + f2 + c2
    requires f == f1 + f2 && cr == c1 + c2
    ensures b2 == b0 + f + cr
  {
  }

  // ---------------------------------------------------------------------
  // The caller's side: the resources it holds
  // ---------------------------------------------------------------------

  /** What the caller holds after one operation: a successful Acquire adds
      the resource it returned, Release(r) takes r away. */
  function HeldStep(c: Config, held: multiset<Resource>, op: Op, produce: nat -> Result<Resource>): multiset<Resource>
    requires Inv(c.pool)
  {
    match op
    case AcquireOp =>
      var a := AcquireStep(c.pool, produce(c.calls));
      if a.result.Success? then held + multiset{a.result.value} else held
    case ReleaseOp(r) => held - multiset{r}
    case CloseOp => held
  }

  /** What the caller holds at the end of the run. */
  function HeldAfter(c: Config, held: multiset<Resource>, ops: seq<Op>, produce: nat -> Result<Resource>): multiset<Resource>
    requires Inv(c.pool)
    decreases |ops|
  {
    if ops == [] then held
    else HeldAfter(Step(c, ops[0], produce), HeldStep(c, held, ops[0], produce), ops[1..], produce)
  }

  /** The caller starts out holding `held` and only ever releases a
      resource it holds at that moment. */
  ghost predicate Owned(c: Config, held: multiset<Resource>, ops: seq<Op>, produce: nat -> Result<Resource>)
    requires Inv(c.pool)
    decreases |ops|
  {
    ops == [] ||
    ((ops[0].ReleaseOp? ==> ops[0].r in held) &&
     Owned(Step(c, ops[0], produce), HeldStep(c, held, ops[0], produce), ops[1..], produce))
  }

  /** Every resource in the system: idle in the pool, held by the caller, or closed. */
  function Holdings(c: Config, held: multiset<Resource>): multiset<Resource>
  {
    multiset(c.pool.buffer) + held + multiset(c.closedLog)
  }

  /** Acquire moves a resource from the pool to the caller, or hands over
      what the factory made. */
  lemma AcquireHoldings(c: Config, held: multiset<Resource>, produce: nat -> Result<Resource>)
    requires Inv(c.pool)
    ensures Holdings(Step(c, AcquireOp, produce), HeldStep(c, held, AcquireOp, produce)) ==
            Holdings(c, held) + multiset(Created(produce, c.calls, Step(c, AcquireOp, produce).calls))
  {
    var a := AcquireStep(c.pool, produce(c.calls));
    var calls := if a.factoryCalled then c.calls + 1 else c.calls;
    var g := if a.result.Success? then [a.result.value] else [];
    var cr := Created(produce, c.calls, calls);
    assert Step(c, AcquireOp, produce).pool == a.next && Step(c, AcquireOp, produce).calls == calls;
    assert HeldStep(c, held, AcquireOp, produce) == held + multiset(g);
    assert multiset(c.pool.buffer) + multiset(cr) == multiset(a.next.buffer) + multiset(g) by {
      if a.factoryCalled {
        assert Created(produce, c.calls, c.calls) == [];
        assert cr == g && a.next == c.pool;
      } else {
        assert cr == [] && c.pool.buffer == g + a.next.buffer;
      }
    }
    Rebalance(multiset(c.pool.buffer), multiset(a.next.buffer), held, held + multiset(g),
              multiset(c.closedLog), multiset(g), multiset(cr));
  }

  /** Release of a held resource moves it from the caller to the pool, or closes it. */
  lemma ReleaseHoldings(c: Config, held: multiset<Resource>, r: Resource, produce: nat -> Result<Resource>)
    requires Inv(c.pool) && r in held
    ensures Holdings(Step(c, ReleaseOp(r), produce), HeldStep(c, held, ReleaseOp(r), produce)) == Holdings(c, held)
  {
    var o := ReleaseStep(c.pool, r);
    assert Step(c, ReleaseOp(r), produce) == Config(o.next, c.calls, c.results, c.closedLog + o.discarded);
    assert multiset(o.next.buffer) + multiset(o.discarded) == multiset(c.pool.buffer) + multiset{r} by {
      assert o.next.buffer + o.discarded == c.pool.buffer + [r];
    }
    assert (held - multiset{r}) + multiset{r} == held;
  }

  /** An operation whose Release gives back a held resource only moves
      resources between the pool, the caller and the closed ones, and adds
      what the factory made. */
  lemma OwnedStep(c: Config, held: multiset<Resource>, op: Op, produce: nat -> Result<Resource>)
    requires Inv(c.pool) && (op.ReleaseOp? ==> op.r in held)
    ensures Holdings(Step(c, op, produce), HeldStep(c, held, op, produce)) ==
            Holdings(c, held) + multiset(Created(produce, c.calls, Step(c, op, produce).calls))
  {
    match op
    case AcquireOp => AcquireHoldings(c, held, produce);
    case ReleaseOp(r) => ReleaseHoldings(c, held, r, produce);
    case CloseOp =>
  }

  /** Conservation from the caller's side: when the caller only releases
      what it holds, no resource appears or disappears except those the
      factory makes, however often a resource goes round. */
  lemma {:induction false} OwnedConservation(c: Config, held: multiset<Resource>, ops: seq<Op>,
                                             produce: nat -> Result<Resource>)
    requires Inv(c.pool) && Owned(c, held, ops, produce)
    ensures Holdings(Exec(c, ops, produce), HeldAfter(c, held, ops, produce)) ==
            Holdings(c, held) + multiset(Created(produce, c.calls, Exec(c, ops, produce).calls))
    decreases |ops|
  {
    if ops != [] {
      var d := Step(c, ops[0], produce);
      var e := Exec(d, ops[1..], produce);
      OwnedStep(c, held, ops[0], produce);
      OwnedConservation(d, HeldStep(c, held, ops[0], produce), ops[1..], produce);
      CreatedSplit(produce, c.calls, d.calls, e.calls);
    }
  }

  /** No resource is closed twice, however often it is reused: a resource
      that occurs at most once in total, counting where it is at the start
      (idle, held or closed) and the times the factory makes it, ends up
      closed at most once. */
  lemma ClosedAtMostOnce(c: Config, held: multiset<Resource>, ops: seq<Op>,
                         produce: nat -> Result<Resource>, x: Resource)
    requires Inv(c.pool) && Owned(c, held, ops, produce)
    ensures var e := Exec(c, ops, produce);
            Holdings(c, held)[x] + multiset(Created(produce, c.calls, e.calls))[x] <= 1 ==>
              multiset(e.closedLog)[x] <= 1
  {
    var e := Exec(c, ops, produce);
    var h := HeldAfter(c, held, ops, produce);
    OwnedConservation(c, held, ops, produce);
    assert Holdings(e, h)[x] == multiset(e.pool.buffer)[x] + h[x] + multiset(e.closedLog)[x];
  }

  /** No resource is counted twice. */
  ghost predicate Distinct(bag: multiset<Resource>)
  {
    forall x :: bag[x] <= 1
  }

  /** From its call `from` on, the factory never makes the same resource
      twice, nor one that is already in `bag`. */
  ghost predicate FreshFrom(produce: nat -> Result<Resource>, from: nat, bag: multiset<Resource>)
  {
    (forall m, n :: from <= m < n && produce(m).Success? && produce(n).Success? ==>
                      produce(m).value != produce(n).value) &&
    (forall n :: from <= n && produce(n).Success? ==> produce(n).value !in bag)
  }

  /** A resource that none of the calls lo, ..., hi - 1 returns is not among those they made. */
  lemma {:induction false} CreatedAvoids(produce: nat -> Result<Resource>, lo: nat, hi: nat, y: Resource)
    requires forall k :: lo <= k < hi && produce(k).Success? ==> produce(k).value != y
    ensures y !in Created(produce, lo, hi)
    decreases hi
  {
    if lo < hi {
      CreatedAvoids(produce, lo, hi - 1, y);
    }
  }

  /** Adding at most one resource that is not there yet keeps a bag free of duplicates. */
  lemma AddNew(bag: multiset<Resource>, last: seq<Resource>)
    requires Distinct(bag) && |last| <= 1 && forall y :: y in last ==> y !in bag
    ensures Distinct(bag + multiset(last))
  {
    forall x ensures (bag + multiset(last))[x] <= 1 {
      assert bag[x] <= 1;
      if last != [] {
        assert last == [last[0]];
      }
    }
  }

  /** A fresh factory adds resources that are new and pairwise distinct. */
  lemma {:induction false} CreatedFresh(produce: nat -> Result<Resource>, lo: nat, hi: nat, bag: multiset<Resource>)
    requires Distinct(bag) && FreshFrom(produce, lo, bag)
    ensures Distinct(bag + multiset(Created(produce, lo, hi)))
    decreases hi
  {
    if lo < hi {
      CreatedFresh(produce, lo, hi - 1, bag);
      var before := bag + multiset(Created(produce, lo, hi - 1));
      var p := produce(hi - 1);
      var last := if p.Success? then [p.value] else [];
      if p.Success? {
        CreatedAvoids(produce, lo, hi - 1, p.value);
      }
      AddNew(before, last);
      assert bag + multiset(Created(produce, lo, hi)) == before + multiset(last);
    }
  }

  /** When every resource starts out in one place and the factory only
      makes new ones, every resource is in exactly one place at the end of
      any run, so no resource is ever closed twice. */
  lemma NeverClosedTwice(c: Config, held: multiset<Resource>, ops: seq<Op>, produce: nat -> Result<Resource>)
    requires Inv(c.pool) && Owned(c, held, ops, produce)
    requires Distinct(Holdings(c, held)) && FreshFrom(produce, c.calls, Holdings(c, held))
    ensures Distinct(Holdings(Exec(c, ops, produce), HeldAfter(c, held, ops, produce)))
    ensures Distinct(multiset(Exec(c, ops, produce).closedLog))
  {
    var e := Exec(c, ops, produce);
    var h := HeldAfter(c, held, ops, produce);
    OwnedConservation(c, held, ops, produce);
    CreatedFresh(produce, c.calls, e.calls, Holdings(c, held));
    forall x ensures multiset(e.closedLog)[x] <= 1 {
      assert multiset(e.closedLog)[x] <= Holdings(e, h)[x];
    }
  }

  /** n results that report PoolClosed. */
  function Refusals(n: nat): (rs: seq<Result<Resource>>)
    ensures |rs| == n
  {
    seq(n, _ => Failure(PoolClosed))
  }

  lemma RefusalsAdd(m: nat, n: nat)
    ensures Refusals(m) + Refusals(n) == Refusals(m + n)
  {
    assert forall i :: 0 <= i < m + n ==> (Refusals(m) + Refusals(n))[i] == Failure(PoolClosed);
  }

  /** On a closed pool one operation changes only the history: an Acquire
      adds a PoolClosed result, a Release closes its resource. */
  lemma StepWhenClosed(c: Config, op: Op, produce: nat -> Result<Resource>)
    requires Inv(c.pool) && c.pool.closed
    ensures Step(c, op, produce) ==
            c.(results := c.results + Refusals(if op.AcquireOp? then 1 else 0),
               closedLog := c.closedLog + (if op.ReleaseOp? then [op.r] else []))
  {
    assert Refusals(1) == [Failure(PoolClosed)];
  }

  /** The refusals a closed pool adds over a run, split at its first operation. */
  lemma RefusalsSplit(results: seq<Result<Resource>>, ops: seq<Op>)
    requires ops != []
    ensures results + Refusals(if ops[0].AcquireOp? then 1 else 0) + Refusals(Acquires(ops[1..])) ==
            results + Refusals(Acquires(ops))
  {
    RefusalsAdd(if ops[0].AcquireOp? then 1 else 0, Acquires(ops[1..]));
  }

  /** The resources a closed pool closes over a run, split at its first operation. */
  lemma ReleasedSplit(log: seq<Resource>, ops: seq<Op>)
    requires ops != []
    ensures log + (if ops[0].ReleaseOp? then [ops[0].r] else []) + Released(ops[1..]) == log + Released(ops)
  {
    var g := if ops[0].ReleaseOp? then [ops[0].r] else [];
    assert Released(ops) == g + Released(ops[1..]);
    assert log + g + Released(ops[1..]) == log + (g + Released(ops[1..]));
  }

  /** A pool that has been closed stays frozen: it stays closed and empty,
      the factory is never called again, every Acquire is refused with
      PoolClosed and every released resource is closed at once. */
  lemma {:induction false} ClosedIsFinal(c: Config, ops: seq<Op>, produce: nat -> Result<Resource>)
    requires Inv(c.pool) && c.pool.closed
    ensures Exec(c, ops, produce) ==
            c.(results := c.results + Refusals(Acquires(ops)), closedLog := c.closedLog + Released(ops))
    decreases |ops|
  {
    if ops != [] {
      StepWhenClosed(c, ops[0], produce);
      ClosedIsFinal(Step(c, ops[0], produce), ops[1..], produce);
      RefusalsSplit(c.results, ops);
      ReleasedSplit(c.closedLog, ops);
    }
  }

  /** Once a run has performed Close, the pool is closed and empty at its end. */
  lemma {:induction false} CloseThenClosed(c: Config, ops: seq<Op>, produce: nat -> Result<Resource>)
    requires Inv(c.pool) && CloseOp in ops
    ensures Exec(c, ops, produce).pool.closed && Exec(c, ops, produce).pool.buffer == []
    decreases |ops|
  {
    var d := Step(c, ops[0], produce);
    if ops[0] == CloseOp {
      ClosedIsFinal(d, ops[1..], produce);
    } else {
      assert CloseOp in ops[1..];
      CloseThenClosed(d, ops[1..], produce);
    }
  }

  /** Each Acquire produces exactly one result, and the factory is called at
      most once per Acquire (and never by Release or Close). */
  lemma {:induction false} FactoryCallsBounded(c: Config, ops: seq<Op>, produce: nat -> Result<Resource>)
    requires Inv(c.pool)
    ensures |Exec(c, ops, produce).results| == |c.results| + Acquires(ops)
    ensures Exec(c, ops, produce).calls <= c.calls + Acquires(ops)
    decreases |ops|
  {
    if ops != [] {
      FactoryCallsBounded(Step(c, ops[0], produce), ops[1..], produce);
    }
  }

  /** n Acquire operations. */
  function AcquireN(n: nat): seq<Op>
  {
    if n == 0 then [] else [AcquireOp] + AcquireN(n - 1)
  }

  /** The buffered resources as successful results, oldest first. */
  function Served(b: seq<Resource>): seq<Result<Resource>>
  {
    if b == [] then [] else [Success(b[0])] + Served(b[1..])
  }

  /** FIFO reuse: on an open pool, as many Acquires as there are buffered
      resources hand those out oldest first, without calling the factory. */
  lemma {:induction false} AcquireDrainsFifo(c: Config, produce: nat -> Result<Resource>)
    requires Inv(c.pool) && !c.pool.closed
    ensures Exec(c, AcquireN(|c.pool.buffer|), produce) ==
            c.(pool := c.pool.(buffer := []), results := c.results + Served(c.pool.buffer))
    decreases |c.pool.buffer|
  {
    var b := c.pool.buffer;
    if b == [] {
      assert c.results + Served(b) == c.results;
    } else {
      var ops := AcquireN(|b|);
      var d := c.(pool := c.pool.(buffer := b[1..]), results := c.results + [Success(b[0])]);
      assert Step(c, AcquireOp, produce) == d;
      assert ops[0] == AcquireOp && ops[1..] == AcquireN(|b| - 1);
      assert Exec(c, ops, produce) == Exec(d, AcquireN(|b| - 1), produce);
      AcquireDrainsFifo(d, produce);
      assert d.results + Served(b[1..]) == c.results + Served(b);
    }
  }

  /** Round trip: a resource released into an open pool with room comes
      back from Acquire, after the resources buffered before it and before
      the factory makes anything. */
  lemma ReleaseThenReuse(c: Config, r: Resource, produce: nat -> Result<Resource>)
    requires Inv(c.pool) && !c.pool.closed && |c.pool.buffer| < c.pool.capacity
    ensures var e := Exec(c, [ReleaseOp(r)] + AcquireN(|c.pool.buffer| + 1), produce);
            e.calls == c.calls && e.closedLog == c.closedLog && e.pool.buffer == [] &&
            e.results == c.results + Served(c.pool.buffer + [r])
  {
    var ops := [ReleaseOp(r)] + AcquireN(|c.pool.buffer| + 1);
    var d := Step(c, ReleaseOp(r), produce);
    assert ops[0] == ReleaseOp(r) && ops[1..] == AcquireN(|c.pool.buffer| + 1);
    assert d.pool.buffer == c.pool.buffer + [r];
    AcquireDrainsFifo(d, produce);
  }

  /** A run only appends to the results. */
  lemma {:induction false} ResultsGrow(c: Config, ops: seq<Op>, produce: nat -> Result<Resource>)
    requires Inv(c.pool)
    ensures |c.results| <= |Exec(c, ops, produce).results|
    ensures Exec(c, ops, produce).results[..|c.results|] == c.results
    decreases |ops|
  {
    if ops != [] {
      var d := Step(c, ops[0], produce);
      ResultsGrow(d, ops[1..], produce);
      assert d.results[..|c.results|] == c.results;
    }
  }

  /** Idle resources are reused before new ones are made: in any run
      without Close, a buffered resource r that no Acquire has returned yet
      is still buffered, and the factory has not been called.  Other
      Releases may come in between; they never push r out. */
  lemma {:induction false} BufferedComesBackFirst(c: Config, ops: seq<Op>, produce: nat -> Result<Resource>, r: Resource)
    requires Inv(c.pool) && !c.pool.closed && r in c.pool.buffer && CloseOp !in ops
    ensures var e := Exec(c, ops, produce);
            |c.results| <= |e.results| &&
            (Success(r) !in e.results[|c.results|..] ==> r in e.pool.buffer && e.calls == c.calls)
    decreases |ops|
  {
    if ops != [] {
      var d := Step(c, ops[0], produce);
      var e := Exec(d, ops[1..], produce);
      assert CloseOp !in ops[1..];
      ResultsGrow(c, ops, produce);
      ResultsGrow(d, ops[1..], produce);
      assert |c.results| <= |d.results|;
      if Success(r) !in e.results[|c.results|..] {
        assert e.results[|c.results|..] == d.results[|c.results|..] + e.results[|d.results|..];
        assert d.results[..|c.results|] == c.results;
        assert r in d.pool.buffer && d.calls == c.calls by {
          if ops[0] == AcquireOp {
            var b := c.pool.buffer;
            assert b == [b[0]] + b[1..];
            assert d.results[|c.results|..] == [Success(b[0])];
          }
        }
        BufferedComesBackFirst(d, ops[1..], produce, r);
      }
    }
  }
}
