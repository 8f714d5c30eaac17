/** CancellationTokenSource (Sources/BoltsSwift/CancellationTokenSource.swift): a façade that owns exactly one
    token and forwards every operation to it, surfacing the token's errors unchanged. */
module CancellationTokenSources {
  import opened Outcomes
  import opened CancellationTokens

  class Source {
    /** Created by `init` and never reassigned (the setter is private). */
    const token: Token

    ghost predicate Valid()
      reads this, token, token.issued, token.pendingCancel
    {
      token.Valid()
    }

    /** `init` / `cancellationTokenSource`: a source owning a fresh, live, uncancelled token. */
    constructor ()
      ensures Valid() && fresh(token)
      ensures !token.cancellationRequested && token.registrations == [] && !token.disposed
      ensures token.pendingCancel == null && token.issued == {}
    {
      token := new Token();
    }

    /** `isCancellationRequested`: the token's flag, readable in every state, disposed or not. */
    method IsCancellationRequested() returns (requested: bool)
      ensures requested == token.cancellationRequested
    {
      requested := token.cancellationRequested;
    }

    /** `cancel`: exactly the token's `cancel()`, with its error. */
    method Cancel() returns (invoked: seq<ObserverId>, res: Outcome)
      requires Valid()
      modifies token, token.pendingCancel
      ensures Valid()
      ensures res == old(token.ThrowIfDisposed())
      ensures token.CancelEffect(invoked)
      ensures old(token.pendingCancel) != null ==>
                old(token.pendingCancel).cancelled
                == (old(token.pendingCancel.cancelled) || !old(token.disposed))
    {
      invoked, res := token.Cancel();
    }

    /** `cancelAfterInterval`: exactly the token's `cancelAfterInterval(interval)`, with its errors. */
    method CancelAfterInterval(interval: real) returns (invoked: seq<ObserverId>, res: Outcome)
      requires Valid()
      modifies token, token.pendingCancel
      ensures Valid()
      ensures token.CancelAfterIntervalEffect(interval, invoked, res)
      ensures old(token.pendingCancel) != null ==>
                old(token.pendingCancel).cancelled
                == (old(token.pendingCancel.cancelled) || (!old(token.disposed) && interval >= 0.0))
    {
      invoked, res := token.CancelAfterInterval(interval);
    }

    /** `dispose`: exactly the token's `dispose()`, which never throws. */
    method Dispose()
      requires Valid()
      modifies token, token.registrations
      ensures Valid()
      ensures token.disposed && token.registrations == []
      ensures token.cancellationRequested == old(token.cancellationRequested)
      ensures token.pendingCancel == old(token.pendingCancel) && token.issued == old(token.issued)
      ensures old(token.disposed) ==> unchanged(token)
      ensures forall r :: r in old(token.registrations) ==> r.disposed && r.token == null && r.observer == None
    {
      token.Dispose();
    }
  }
}
