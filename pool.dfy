/** The connection pool of pool.py, taken one step at a time: a LIFO stack
    of free connections and, per thread, the connection it currently holds.
    Locks, thread-local storage and blocking waits are replaced by explicit
    thread identities and a failure on an empty stack. */
module Pools {
  import opened Common
  import opened Bigtable
  import opened Connections

  type ThreadId = nat

  /** A connection built by the pool, told apart by the order it was built in. */
  datatype PooledConnection = PooledConnection(id: nat, connection: Connection)

  /** What `connection()` yields, and whether it was taken from the stack
      (as opposed to the thread's current connection being reused). */
  datatype Lease = Lease(conn: PooledConnection, retrievedNew: bool)

  /** The pool: its size, the free stack (top at the end) and the current
      connection of each thread that holds one. */
  datatype PoolState = PoolState(size: nat, free: seq<PooledConnection>, current: map<ThreadId, PooledConnection>)

  /** Conservation: every connection is either free or held by exactly one
      thread, never both, and free plus held is the pool size. */
  ghost predicate Conserved(s: PoolState) {
    && |s.free| + |s.current| == s.size
    && (forall i, j | 0 <= i < j < |s.free| :: s.free[i] != s.free[j])
    && (forall t | t in s.current :: s.current[t] !in s.free)
    && (forall t, u | t in s.current && u in s.current && t != u :: s.current[t] != s.current[u])
  }

  /** Entering `with pool.connection()` in thread t: the thread's current
      connection is reused without touching the stack; otherwise the top
      of the stack is popped and recorded as current, and an empty stack
      fails with NoConnectionsAvailable. */
  function EnterStep(s: PoolState, t: ThreadId): (r: Result<(PoolState, Lease)>)
    ensures t in s.current ==> r == Ok((s, Lease(s.current[t], false)))
    ensures t !in s.current && s.free == [] ==> r == Err(NoConnectionAvailable)
    ensures t !in s.current && s.free != [] ==>
      && r.Ok? && r.value.1 == Lease(s.free[|s.free| - 1], true)
      && r.value.0 == PoolState(s.size, s.free[..|s.free| - 1], s.current[t := s.free[|s.free| - 1]])
  {
    if t in s.current then Ok((s, Lease(s.current[t], false)))
    else if s.free == [] then Err(NoConnectionAvailable)
    else
      var c := s.free[|s.free| - 1];
      Ok((PoolState(s.size, s.free[..|s.free| - 1], s.current[t := c]), Lease(c, true)))
  }

  /** Leaving the block: only a fresh lease left normally removes the
      thread's record and pushes the connection back; an exception in the
      block skips that release, as a generator-based context manager
      without try/finally does. */
  function ExitStep(s: PoolState, t: ThreadId, lease: Lease, normal: bool): (r: PoolState)
    ensures !(lease.retrievedNew && normal) ==> r == s
    ensures lease.retrievedNew && normal ==>
      r.size == s.size && r.free == s.free + [lease.conn] && t !in r.current
      && forall u | u != t :: (u in r.current <==> u in s.current) && (u in r.current ==> r.current[u] == s.current[u])
  {
    if lease.retrievedNew && normal then PoolState(s.size, s.free + [lease.conn], s.current - {t}) else s
  }

  /** Entering keeps the conservation invariant. */
  lemma EnterConserves(s: PoolState, t: ThreadId)
    requires Conserved(s) && EnterStep(s, t).Ok?
    ensures Conserved(EnterStep(s, t).value.0)
    ensures var lease := EnterStep(s, t).value.1;
      var next := EnterStep(s, t).value.0;
      t in next.current && next.current[t] == lease.conn
  {
    if t !in s.current {
      var n := |s.free| - 1;
      var c := s.free[n];
      var next := EnterStep(s, t).value.0;
      assert s.free == s.free[..n] + [c];
      assert c !in s.free[..n];
      assert next.current.Keys == s.current.Keys + {t};
      forall u | u in s.current
        ensures s.current[u] != c && s.current[u] !in s.free[..n]
      {
        assert s.current[u] !in s.free;
      }
    }
  }

  /** Leaving with the lease that was taken keeps the conservation invariant. */
  lemma ExitConserves(s: PoolState, t: ThreadId, lease: Lease, normal: bool)
    requires Conserved(s)
    requires lease.retrievedNew ==> t in s.current && s.current[t] == lease.conn
    ensures Conserved(ExitStep(s, t, lease, normal))
  {
    if lease.retrievedNew && normal {
      var next := ExitStep(s, t, lease, normal);
      assert next.current.Keys == s.current.Keys - {t};
      assert |next.current| == |s.current| - 1;
      forall u | u in next.current
        ensures next.current[u] !in next.free
      {
        assert next.current[u] == s.current[u] != lease.conn;
      }
    }
  }

  /** A nested block in a thread that holds a connection gets that same
      connection, and leaving it, normally or not, changes nothing. */
  lemma ReentrantKeepsState(s: PoolState, t: ThreadId, normal: bool)
    requires t in s.current
    ensures EnterStep(s, t).Ok?
    ensures var (next, lease) := EnterStep(s, t).value;
      && lease.conn == s.current[t] && !lease.retrievedNew
      && next == s && ExitStep(next, t, lease, normal) == s
  {
  }

  /** A fresh lease left normally restores the stack and the thread
      records exactly as they were. */
  lemma FreshLeaseRoundTrip(s: PoolState, t: ThreadId)
    requires t !in s.current && s.free != []
    ensures EnterStep(s, t).Ok?
    ensures var (next, lease) := EnterStep(s, t).value;
      lease.retrievedNew && ExitStep(next, t, lease, true) == s
  {
    var (next, lease) := EnterStep(s, t).value;
    assert s.free[..|s.free| - 1] + [s.free[|s.free| - 1]] == s.free;
    assert s.current[t := lease.conn] - {t} == s.current;
  }

  /** A fresh lease left through an exception keeps its connection out of
      the stack and recorded for the thread, which reuses it next time. */
  lemma AbnormalExitKeepsLease(s: PoolState, t: ThreadId)
    requires t !in s.current && s.free != []
    ensures EnterStep(s, t).Ok?
    ensures var (next, lease) := EnterStep(s, t).value;
      var after := ExitStep(next, t, lease, false);
      && |after.free| == |s.free| - 1
      && EnterStep(after, t) == Ok((after, Lease(lease.conn, false)))
  {
  }

  /** The stack is LIFO: the connection returned last is the next one
      handed to a thread without a connection. */
  lemma LastReturnedFirstLent(s: PoolState, t: ThreadId, c: PooledConnection, u: ThreadId)
    requires u != t && u !in s.current
    ensures var after := ExitStep(s, t, Lease(c, true), true);
      EnterStep(after, u).Ok? && EnterStep(after, u).value.1 == Lease(c, true)
  {
  }

  /** With no free connection, a thread without one is refused. */
  lemma EmptyStackRefuses(s: PoolState, t: ThreadId)
    requires Conserved(s) && |s.current| == s.size && t !in s.current
    ensures EnterStep(s, t) == Err(NoConnectionAvailable)
  {
  }

  // ---- construction -----------------------------------------------------

  /** The pool constructor's size checks (a bool is an int in Python). */
  function PoolSizeError(size: PyValue): (r: Option<Error>)
    ensures r == Some(PoolSizeNotInteger) <==> !IsInteger(size)
    ensures r == Some(PoolSizeNotPositive) <==> IsInteger(size) && IntValue(size) < 1
    ensures r.None? <==> IsInteger(size) && IntValue(size) >= 1
    ensures r.Some? ==> (r.value.Class() == TypeError <==> !IsInteger(size))
  {
    if !IsInteger(size) then Some(PoolSizeNotInteger)
    else if IntValue(size) < 1 then Some(PoolSizeNotPositive)
    else None
  }

  /** How the pool's keywords mention `instance`. */
  datatype InstanceArg = NotPassed | PassedNone | Passed(instance: Instance)

  /** The connection each slot of the pool gets: without an `instance`
      keyword the pool looks the instance up once and passes it on; an
      explicit None leaves the lookup to every connection. */
  function SlotConnection(args: ConnectionArgs, instanceArg: InstanceArg, listing: InstanceListing): (r: Result<Connection>)
    ensures instanceArg.Passed? ==> r == NewConnection(args.(instance := Some(instanceArg.instance)), listing)
    ensures instanceArg.PassedNone? ==> r == NewConnection(args.(instance := None), listing)
    ensures instanceArg.NotPassed? && GetInstance(listing).Err? ==> r == Err(GetInstance(listing).error)
    ensures instanceArg.NotPassed? && GetInstance(listing).Ok? ==>
      r == NewConnection(args.(instance := Some(GetInstance(listing).value)), listing)
  {
    match instanceArg
    case Passed(i) => NewConnection(args.(instance := Some(i)), listing)
    case PassedNone => NewConnection(args.(instance := None), listing)
    case NotPassed =>
      var i :- GetInstance(listing);
      NewConnection(args.(instance := Some(i)), listing)
  }

  class ConnectionPool {
    const size: nat
    var queue: seq<PooledConnection>
    var current: map<ThreadId, PooledConnection>

    function State(): PoolState
      reads this
    {
      PoolState(size, queue, current)
    }

    ghost predicate Valid()
      reads this
    {
      size >= 1 && Conserved(State())
    }

    /** The stack filled with the connections built for it, in order (the
        last one built on top), none on loan. */
    constructor (connections: seq<Connection>)
      requires |connections| >= 1
      ensures Valid() && size == |connections| && current == map[]
      ensures queue == seq(|connections|, i requires 0 <= i < |connections| => PooledConnection(i, connections[i]))
    {
      var stack := [];
      var i := 0;
      while i < |connections|
        invariant 0 <= i <= |connections|
        invariant stack == seq(i, k requires 0 <= k < i => PooledConnection(k, connections[k]))
      {
        stack := stack + [PooledConnection(i, connections[i])];
        i := i + 1;
      }
      size := |connections|;
      queue := stack;
      current := map[];
    }

    /** `_acquire_connection`: the top of the stack, or NoConnectionsAvailable
        with the stack unchanged. */
    method AcquireConnection() returns (r: Result<PooledConnection>)
      modifies this
      ensures current == old(current)
      ensures old(queue) == [] ==> r == Err(NoConnectionAvailable) && queue == old(queue)
      ensures old(queue) != [] ==>
        r == Ok(old(queue)[|old(queue)| - 1]) && queue == old(queue)[..|old(queue)| - 1]
    {
      if queue == [] {
        return Err(NoConnectionAvailable);
      }
      r := Ok(queue[|queue| - 1]);
      queue := queue[..|queue| - 1];
    }

    /** Entering `with pool.connection()` in thread t. */
    method Enter(t: ThreadId) returns (r: Result<Lease>)
      requires Valid()
      modifies this
      ensures Valid()
      ensures var step := EnterStep(old(State()), t);
        && (step.Err? ==> r == Err(step.error) && State() == old(State()))
        && (step.Ok? ==> r == Ok(step.value.1) && State() == step.value.0)
      ensures r.Ok? ==> t in current && current[t] == r.value.conn
    {
      if t in current {
        return Ok(Lease(current[t], false));
      }
      if queue != [] {
        EnterConserves(State(), t);
      }
      var acquired := AcquireConnection();
      if acquired.Err? {
        return Err(acquired.error);
      }
      current := current[t := acquired.value];
      r := Ok(Lease(acquired.value, true));
    }

    /** Leaving the block entered with `lease`, normally or by an exception. */
    method Exit(t: ThreadId, lease: Lease, normal: bool)
      requires Valid()
      requires lease.retrievedNew ==> t in current && current[t] == lease.conn
      modifies this
      ensures Valid()
      ensures State() == ExitStep(old(State()), t, lease, normal)
    {
      ExitConserves(State(), t, lease, normal);
      if lease.retrievedNew && normal {
        current := current - {t};
        queue := queue + [lease.conn];
      }
    }
  }

  /** `ConnectionPool(size, **kwargs)`: the size checks come first; then,
      without an `instance` keyword, one lookup whose instance every
      connection shares; then `size` connections built one after another,
      the first failure aborting. Also returns the number of instance
      lookups made. */
  method NewPool(size: PyValue, args: ConnectionArgs, instanceArg: InstanceArg, listing: InstanceListing)
    returns (r: Result<ConnectionPool>, lookups: nat)
    ensures PoolSizeError(size).Some? ==> r == Err(PoolSizeError(size).value) && lookups == 0
    ensures PoolSizeError(size).None? ==> (r.Ok? <==> SlotConnection(args, instanceArg, listing).Ok?)
    ensures PoolSizeError(size).None? && r.Err? ==> r.error == SlotConnection(args, instanceArg, listing).error
    ensures r.Ok? ==>
      && fresh(r.value) && r.value.Valid() && r.value.current == map[]
      && r.value.size == IntValue(size)
      && r.value.queue == seq(IntValue(size), i requires 0 <= i < IntValue(size) =>
           PooledConnection(i, SlotConnection(args, instanceArg, listing).value))
    ensures r.Ok? ==> lookups == match instanceArg
      case NotPassed => 1
      case PassedNone => IntValue(size)
      case Passed(_) => 0
  {
    var sizeError := PoolSizeError(size);
    if sizeError.Some? {
      return Err(sizeError.value), 0;
    }
    var n := IntValue(size);
    lookups := 0;
    var slotArgs := args;
    if instanceArg.NotPassed? {
      lookups := 1;
      var found := GetInstance(listing);
      if found.Err? {
        return Err(found.error), lookups;
      }
      slotArgs := args.(instance := Some(found.value));
    } else if instanceArg.PassedNone? {
      slotArgs := args.(instance := None);
    } else {
      slotArgs := args.(instance := Some(instanceArg.instance));
    }
    var connections: seq<Connection> := [];
    var i := 0;
    while i < n
      invariant 0 <= i <= n && |connections| == i
      invariant NewConnection(slotArgs, listing) == SlotConnection(args, instanceArg, listing)
      invariant i > 0 ==> NewConnection(slotArgs, listing).Ok?
      invariant forall k | 0 <= k < i :: connections[k] == NewConnection(slotArgs, listing).value
      invariant lookups == (match instanceArg
        case NotPassed => 1
        case PassedNone => i
        case Passed(_) => 0)
    {
      var built := NewConnection(slotArgs, listing);
      if instanceArg.PassedNone? && ConstructorChecksPass(slotArgs) {
        lookups := lookups + 1;
      }
      if built.Err? {
        return Err(built.error), lookups;
      }
      if !instanceArg.PassedNone? {
        assert ConstructorChecksPass(slotArgs);
      }
      connections := connections + [built.value];
      i := i + 1;
    }
    var pool := new ConnectionPool(connections);
    r := Ok(pool);
  }
}
