/**
 * The adapter that exposes a limiter as a .NET `RateLimiter`: leases are granted from
 * the inner limiter's responses, counted, and waiters poll the inner limiter until
 * they succeed or their cancellation source is cancelled. Disposal is one-way and
 * cancels every queued waiter.
 */
module LeaseAdapter {
  import opened Wrappers
  import opened Parameters

  /** A lease: only whether it was acquired. */
  datatype Lease = Lease(isAcquired: bool)

  /** `ObjectDisposedException`, and the cancellation a waiter sees inside its delay. */
  datatype AdapterError = ObjectDisposed | Canceled

  datatype Statistics = Statistics(
    currentAvailablePermits: int,
    totalFailedLeases: int,
    totalSuccessfulLeases: int,
    currentQueuedCount: nat)

  /** What an asynchronous acquire returns at once: a lease, or a queued waiter to run later. */
  datatype Ticket = Ready(lease: Lease) | Queued(id: nat, permitCount: int)

  /** A cancellation token source: once cancelled it stays cancelled. */
  class CancellationSource {
    var cancelled: bool

    constructor(cancelled: bool)
      ensures this.cancelled == cancelled
    {
      this.cancelled := cancelled;
    }

    method Cancel()
      modifies this
      ensures cancelled
    {
      cancelled := true;
    }
  }

  /**
   * The wrapped limiter, seen from outside: the i-th `Limit` call gets `responses(i)`,
   * `AvailableCount` reports `available`, and the counts it was asked for are recorded.
   */
  class InnerLimiter {
    const responses: nat -> RateLimitResponse
    const available: int
    var requests: seq<int>

    constructor(responses: nat -> RateLimitResponse, available: int)
      ensures this.responses == responses && this.available == available && requests == []
    {
      this.responses := responses;
      this.available := available;
      requests := [];
    }

    method Limit(count: int) returns (r: RateLimitResponse)
      modifies this
      ensures requests == old(requests) + [count]
      ensures r == responses(|old(requests)|)
    {
      r := responses(|requests|);
      requests := requests + [count];
    }

    function AvailableCount(): int {
      available
    }
  }

  class RedisRateLimiter {
    const limiter: InnerLimiter
    var disposed: bool
    var failedLeaseCount: int
    var successfulLeaseCount: int
    /** The cancellation sources of the waiters still polling, by waiter id. */
    var queue: map<nat, CancellationSource>
    /** How many waiters were ever queued; ids are handed out in order. */
    var issued: nat

    ghost predicate Valid()
      reads this
    {
      forall id | id in queue :: id < issued
    }

    constructor(limiter: InnerLimiter)
      ensures this.limiter == limiter && Valid()
      ensures !disposed && failedLeaseCount == 0 && successfulLeaseCount == 0 && queue == map[]
    {
      this.limiter := limiter;
      disposed := false;
      failedLeaseCount := 0;
      successfulLeaseCount := 0;
      queue := map[];
      issued := 0;
    }

    /** `ThrowIfDisposed`: an error exactly when the adapter has been disposed. */
    method ThrowIfDisposed() returns (r: Option<AdapterError>)
      ensures r.Some? <==> disposed
      ensures r.Some? ==> r.value == ObjectDisposed
    {
      if disposed {
        return Some(ObjectDisposed);
      }
      return None;
    }

    /** `GetStatistics`: the inner limiter's available count, both lease counters and the number of queued waiters. */
    method GetStatistics() returns (r: Result<Statistics, AdapterError>)
      ensures disposed ==> r == Failure(ObjectDisposed)
      ensures !disposed ==> r == Success(Statistics(limiter.available, failedLeaseCount, successfulLeaseCount, |queue|))
    {
      var check := ThrowIfDisposed();
      if check.Some? {
        return Failure(check.value);
      }
      return Success(Statistics(limiter.AvailableCount(), failedLeaseCount, successfulLeaseCount, |queue|));
    }

    /** `GetLease`: the lease follows the response, and exactly one of the two counters goes up. */
    method GetLease(response: RateLimitResponse) returns (lease: Lease)
      modifies this
      ensures lease.isAcquired == response.isSuccessful
      ensures successfulLeaseCount == old(successfulLeaseCount) + (if response.isSuccessful then 1 else 0)
      ensures failedLeaseCount == old(failedLeaseCount) + (if response.isSuccessful then 0 else 1)
      ensures disposed == old(disposed) && queue == old(queue) && issued == old(issued)
    {
      if response.isSuccessful {
        successfulLeaseCount := successfulLeaseCount + 1;
        return Lease(true);
      }
      failedLeaseCount := failedLeaseCount + 1;
      return Lease(false);
    }

    /**
     * `AttemptAcquireCore`: refused once disposed. Zero permits ask only whether
     * anything is available, without calling `Limit` or counting; otherwise exactly one
     * `Limit` call decides the lease and exactly one counter goes up.
     */
    method AttemptAcquire(permitCount: int) returns (r: Result<Lease, AdapterError>)
      modifies this, limiter
      ensures old(disposed) ==> r == Failure(ObjectDisposed)
      ensures old(disposed) || permitCount == 0 ==>
        && limiter.requests == old(limiter.requests)
        && successfulLeaseCount == old(successfulLeaseCount) && failedLeaseCount == old(failedLeaseCount)
      ensures !old(disposed) && permitCount == 0 ==> r == Success(Lease(limiter.available > 0))
      ensures !old(disposed) && permitCount != 0 ==>
        var response := limiter.responses(|old(limiter.requests)|);
        && limiter.requests == old(limiter.requests) + [permitCount]
        && r == Success(Lease(response.isSuccessful))
        && successfulLeaseCount == old(successfulLeaseCount) + (if response.isSuccessful then 1 else 0)
        && failedLeaseCount == old(failedLeaseCount) + (if response.isSuccessful then 0 else 1)
      ensures disposed == old(disposed) && queue == old(queue) && issued == old(issued)
    {
      var check := ThrowIfDisposed();
      if check.Some? {
        return Failure(check.value);
      }
      if permitCount == 0 {
        if limiter.AvailableCount() > 0 {
          return Success(Lease(true));
        }
        return Success(Lease(false));
      }
      var response := limiter.Limit(permitCount);
      var lease := GetLease(response);
      return Success(lease);
    }

    /**
     * `AcquireAsyncCore` together with the synchronous start of `WaitAsyncInternal`:
     * refused once disposed; zero permits are answered at once as in `AttemptAcquire`;
     * otherwise a cancellation source linked to the caller's token is queued and the
     * waiter runs until its first delay. A caller whose token is already cancelled gets
     * a failed lease without any `Limit` call; otherwise the first `Limit` call is made
     * here, and a success is counted and returned at once. In both cases the waiter has
     * finished and its continuation takes it off the queue again. After a failed first
     * poll the waiter stays queued, in its delay, and nothing is counted.
     */
    method AcquireAsync(permitCount: int, callerCancelled: bool) returns (r: Result<Ticket, AdapterError>)
      requires Valid()
      modifies this, limiter
      ensures Valid()
      ensures old(disposed) ==> r == Failure(ObjectDisposed)
      ensures old(disposed) || permitCount == 0 || callerCancelled ==>
        limiter.requests == old(limiter.requests) && queue == old(queue)
        && successfulLeaseCount == old(successfulLeaseCount)
      ensures !old(disposed) && permitCount == 0 ==> r == Success(Ready(Lease(limiter.available > 0)))
      ensures !old(disposed) && permitCount != 0 && callerCancelled ==> r == Success(Ready(Lease(false)))
      ensures !old(disposed) && permitCount != 0 && !callerCancelled ==>
        var response := limiter.responses(|old(limiter.requests)|);
        && limiter.requests == old(limiter.requests) + [permitCount]
        && (response.isSuccessful ==>
              && r == Success(Ready(Lease(true))) && queue == old(queue)
              && successfulLeaseCount == old(successfulLeaseCount) + 1)
        && (!response.isSuccessful ==>
              && r.Success? && r.value.Queued? && r.value.permitCount == permitCount
              && r.value.id !in old(queue)
              && r.value.id in queue && fresh(queue[r.value.id]) && !queue[r.value.id].cancelled
              && queue == old(queue)[r.value.id := queue[r.value.id]]
              && successfulLeaseCount == old(successfulLeaseCount))
      ensures disposed == old(disposed) && failedLeaseCount == old(failedLeaseCount)
    {
      var check := ThrowIfDisposed();
      if check.Some? {
        return Failure(check.value);
      }
      if permitCount == 0 {
        if limiter.AvailableCount() > 0 {
          return Success(Ready(Lease(true)));
        }
        return Success(Ready(Lease(false)));
      }
      var source := new CancellationSource(callerCancelled);
      var id := issued;
      issued := issued + 1;
      queue := queue[id := source];
      if source.cancelled {
        queue := queue - {id};
        return Success(Ready(Lease(false)));
      }
      var response := limiter.Limit(permitCount);
      if response.isSuccessful {
        var lease := GetLease(response);
        queue := queue - {id};
        return Success(Ready(lease));
      }
      return Success(Queued(id, permitCount));
    }

    /**
     * The rest of `WaitAsyncInternal`, from the waiter's first delay, and the
     * continuation that dequeues it. The caller's cancellation arrives after `rounds`
     * further failed polls reach `cancelAfter`: inside that delay (`duringDelay`, so the
     * delay throws) or after it, before the loop test (so the loop ends with a failed
     * lease that is not counted). A source cancelled before the delay, as disposal does,
     * makes the delay throw at once. Each later poll asks for `permitCount`; only a
     * success is counted, and the waiter leaves the queue either way.
     */
    method RunWaiter(id: nat, permitCount: int, cancelAfter: nat, duringDelay: bool) returns (r: Result<Lease, AdapterError>)
      requires Valid() && id in queue
      modifies this, limiter, queue[id]
      ensures Valid()
      ensures queue == old(queue) - {id}
      ensures disposed == old(disposed) && issued == old(issued) && failedLeaseCount == old(failedLeaseCount)
      ensures var polls := |limiter.requests| - |old(limiter.requests)|;
        && polls >= 0
        && limiter.requests[..|old(limiter.requests)|] == old(limiter.requests)
        && (forall j | |old(limiter.requests)| <= j < |limiter.requests| :: limiter.requests[j] == permitCount)
        && (forall j | |old(limiter.requests)| <= j < |limiter.requests| - 1 :: !limiter.responses(j).isSuccessful)
        && (old(queue[id].cancelled) ==> polls == 0 && r == Failure(Canceled))
        && (r == Success(Lease(true)) <==> polls > 0 && limiter.responses(|limiter.requests| - 1).isSuccessful)
        && (r == Success(Lease(true)) ==> successfulLeaseCount == old(successfulLeaseCount) + 1)
        && (r != Success(Lease(true)) ==> successfulLeaseCount == old(successfulLeaseCount))
        && (r != Success(Lease(true)) && !old(queue[id].cancelled) ==> polls == cancelAfter)
        && (r == Failure(Canceled) || r == Success(Lease(false)) || r == Success(Lease(true)))
        && (r == Failure(Canceled) && !old(queue[id].cancelled) ==> duringDelay)
        && (r == Success(Lease(false)) ==> !duringDelay)
    {
      var source := queue[id];
      var rounds: nat := 0;
      while true
        invariant rounds <= cancelAfter
        invariant old(source.cancelled) ==> source.cancelled && rounds == 0
        invariant !source.cancelled
        || (old(source.cancelled) && |limiter.requests| == |old(limiter.requests)|)
        invariant |limiter.requests| == |old(limiter.requests)| + rounds
        invariant limiter.requests[..|old(limiter.requests)|] == old(limiter.requests)
        invariant forall j | |old(limiter.requests)| <= j < |limiter.requests| :: limiter.requests[j] == permitCount
        invariant forall j | |old(limiter.requests)| <= j < |limiter.requests| :: !limiter.responses(j).isSuccessful
        invariant queue == old(queue) && disposed == old(disposed) && issued == old(issued)
        invariant successfulLeaseCount == old(successfulLeaseCount) && failedLeaseCount == old(failedLeaseCount)
        decreases cancelAfter - rounds
      {
        if rounds == cancelAfter && duringDelay {
          source.Cancel();
        }
        if source.cancelled {
          r := Failure(Canceled);
          break;
        }
        if rounds == cancelAfter {
          source.Cancel();
          r := Success(Lease(false));
          break;
        }
        var response := limiter.Limit(permitCount);
        if response.isSuccessful {
          var lease := GetLease(response);
          r := Success(lease);
          break;
        }
        rounds := rounds + 1;
      }
      queue := queue - {id};
    }

    /**
     * `AcquireAsyncCore` run to completion: the waiter is queued, polls, and leaves the
     * queue, so the queue is as before. A caller whose token is already cancelled gets a
     * failed lease without any `Limit` call; otherwise the first poll is always made.
     */
    method AcquireAndWait(permitCount: int, callerCancelled: bool, cancelAfter: nat, duringDelay: bool)
      returns (r: Result<Lease, AdapterError>)
      requires Valid()
      modifies this, limiter
      ensures Valid() && queue == old(queue) && disposed == old(disposed)
      ensures failedLeaseCount == old(failedLeaseCount)
      ensures old(disposed) ==> r == Failure(ObjectDisposed)
      ensures old(disposed) || permitCount == 0 || callerCancelled ==>
        limiter.requests == old(limiter.requests) && successfulLeaseCount == old(successfulLeaseCount)
      ensures !old(disposed) && permitCount == 0 ==> r == Success(Lease(limiter.available > 0))
      ensures !old(disposed) && permitCount != 0 && callerCancelled ==> r == Success(Lease(false))
      ensures !old(disposed) && permitCount != 0 && !callerCancelled ==>
        && |limiter.requests| > |old(limiter.requests)|
        && limiter.requests[..|old(limiter.requests)|] == old(limiter.requests)
        && (forall j | |old(limiter.requests)| <= j < |limiter.requests| :: limiter.requests[j] == permitCount)
        && (forall j | |old(limiter.requests)| <= j < |limiter.requests| - 1 :: !limiter.responses(j).isSuccessful)
        && (r == Success(Lease(true)) <==> limiter.responses(|limiter.requests| - 1).isSuccessful)
        && successfulLeaseCount == old(successfulLeaseCount) + (if r == Success(Lease(true)) then 1 else 0)
        && (r.Failure? ==> r.error == Canceled && duringDelay)
    {
      var ticket := AcquireAsync(permitCount, callerCancelled);
      if ticket.Failure? {
        return Failure(ticket.error);
      }
      match ticket.value
      case Ready(lease) =>
        return Success(lease);
      case Queued(id, count) =>
        r := RunWaiter(id, count, cancelAfter, duringDelay);
    }

    /**
     * An acquire followed by disposal: the first poll decides. A success is returned at
     * once and counted; otherwise the queued waiter's source is cancelled while it sleeps,
     * so its delay throws without another `Limit` call and nothing more is counted.
     */
    method AcquireThenDispose(permitCount: int) returns (r: Result<Lease, AdapterError>)
      requires Valid()
      modifies this, limiter, set k | k in queue :: queue[k]
      ensures Valid() && disposed && queue == old(queue)
      ensures old(disposed) ==> r == Failure(ObjectDisposed) && limiter.requests == old(limiter.requests)
      ensures !old(disposed) && permitCount == 0 ==>
        r == Success(Lease(limiter.available > 0)) && limiter.requests == old(limiter.requests)
      ensures !old(disposed) && permitCount != 0 ==>
        var response := limiter.responses(|old(limiter.requests)|);
        && limiter.requests == old(limiter.requests) + [permitCount]
        && r == (if response.isSuccessful then Success(Lease(true)) else Failure(Canceled))
        && successfulLeaseCount == old(successfulLeaseCount) + (if response.isSuccessful then 1 else 0)
      ensures old(disposed) || permitCount == 0 ==> successfulLeaseCount == old(successfulLeaseCount)
      ensures failedLeaseCount == old(failedLeaseCount)
    {
      var ticket := AcquireAsync(permitCount, false);
      Dispose(true);
      if ticket.Failure? {
        return Failure(ticket.error);
      }
      match ticket.value
      case Ready(lease) =>
        return Success(lease);
      case Queued(id, count) =>
        r := RunWaiter(id, count, 0, false);
    }

    /**
     * `Dispose(disposing)`: nothing happens when not disposing or when already disposed;
     * otherwise the adapter is marked disposed and every queued waiter's source is
     * cancelled. Counters and the queue itself are untouched.
     */
    method Dispose(disposing: bool)
      modifies this, set id | id in queue :: queue[id]
      ensures !disposing || old(disposed) ==> disposed == old(disposed)
      ensures disposing ==> disposed
      ensures queue == old(queue) && issued == old(issued)
      ensures successfulLeaseCount == old(successfulLeaseCount) && failedLeaseCount == old(failedLeaseCount)
      ensures !disposing || old(disposed) ==> forall id | id in queue :: queue[id].cancelled == old(queue[id].cancelled)
      ensures disposing && !old(disposed) ==> forall id | id in queue :: queue[id].cancelled
    {
      if !disposing {
        return;
      }
      if disposed {
        return;
      }
      disposed := true;
      var pending := queue.Keys;
      while pending != {}
        invariant pending <= queue.Keys
        invariant forall id | id in queue && id !in pending :: queue[id].cancelled
        invariant queue == old(queue) && disposed && issued == old(issued)
        invariant successfulLeaseCount == old(successfulLeaseCount) && failedLeaseCount == old(failedLeaseCount)
        decreases pending
      {
        var id :| id in pending;
        queue[id].Cancel();
        pending := pending - {id};
      }
    }
  }
}
