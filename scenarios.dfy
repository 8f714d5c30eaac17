/** End-to-end scenarios over fresh objects, each following one case of Tests/CancellationTests.swift or one
    documented behaviour of the token; their postconditions are the outcomes those cases expect. */
module Scenarios {
  import opened Outcomes
  import opened CancellationTokens
  import opened CancellationTokenSources

  /** A fresh source is not cancelled; after `cancel()` the source and its token report cancelled, and a
      second `cancel()` succeeds, notifies no one and leaves the flag set. */
  method CancelTwice() returns (before: bool, after: bool, again: bool, secondInvoked: seq<ObserverId>, second: Outcome)
    ensures !before && after && again
    ensures secondInvoked == [] && second == Ok
  {
    var cts := new Source();
    before := cts.IsCancellationRequested();
    var invoked, res := cts.Cancel();
    after := cts.IsCancellationRequested();
    secondInvoked, second := cts.Cancel();
    again := cts.token.cancellationRequested;
  }

  /** Two observers registered in turn are invoked in registration order, once each. */
  method NotifyInOrder(first: ObserverId, second: ObserverId) returns (invoked: seq<ObserverId>, res: Outcome)
    ensures res == Ok && invoked == [first, second]
  {
    var cts := new Source();
    var r1 := cts.token.RegisterCancellationObserver(first);
    var r2 := cts.token.RegisterCancellationObserver(second);
    invoked, res := cts.Cancel();
    InvokedOncePerRegistration([r1, r2]);
  }

  /** An observer registered after cancellation is listed but never invoked: a repeat `cancel()` returns
      before notifying. */
  method LateRegistration(observer: ObserverId) returns (listed: bool, invoked: seq<ObserverId>)
    ensures listed && invoked == []
  {
    var cts := new Source();
    var _, _ := cts.Cancel();
    var reg := cts.token.RegisterCancellationObserver(observer);
    listed := reg != null && reg in cts.token.registrations;
    var res;
    invoked, res := cts.Cancel();
  }

  /** A registration disposed before `cancel()` is never notified by it. */
  method DisposeRegistrationBeforeCancel(observer: ObserverId)
    returns (disposal: Outcome, invoked: seq<ObserverId>, res: Outcome)
    ensures disposal == Ok && invoked == [] && res == Ok
  {
    var cts := new Source();
    var reg := cts.token.RegisterCancellationObserver(observer);
    disposal := reg.Dispose();
    invoked, res := cts.Cancel();
  }

  /** Disposing a registration twice does not throw, and the second call changes nothing. */
  method DisposeRegistrationTwice(observer: ObserverId) returns (first: Outcome, second: Outcome, listed: bool)
    ensures first == Ok && second == Ok && !listed
  {
    var cts := new Source();
    var reg := cts.token.RegisterCancellationObserver(observer);
    first := reg.Dispose();
    second := reg.Dispose();
    listed := reg in cts.token.registrations;
  }

  /** A positive interval does not cancel at once; when the pending item fires, the token is cancelled. */
  method CancelAfterDelay() returns (res: Outcome, early: bool, late: bool)
    ensures res == Ok && !early && late
  {
    var cts := new Source();
    var invoked;
    invoked, res := cts.CancelAfterInterval(0.2);
    early := cts.IsCancellationRequested();
    var item := cts.token.pendingCancel;
    var fired := cts.token.FireDelayedCancel(item);
    late := cts.IsCancellationRequested();
  }

  /** A negative interval is refused with `IntervalError`; a zero interval cancels at once. */
  method IntervalSigns() returns (negative: Outcome, afterNegative: bool, zero: Outcome, afterZero: bool)
    ensures negative == Fail(IntervalError) && !afterNegative
    ensures zero == Ok && afterZero
  {
    var cts := new Source();
    var invoked;
    invoked, negative := cts.CancelAfterInterval(-1.0);
    afterNegative := cts.IsCancellationRequested();
    invoked, zero := cts.CancelAfterInterval(0.0);
    afterZero := cts.IsCancellationRequested();
  }

  /** A delayed cancel requested on a cancelled source schedules nothing and leaves it cancelled. */
  method DelayOnCancelled() returns (res: Outcome, scheduled: bool, requested: bool)
    ensures res == Ok && !scheduled && requested
  {
    var cts := new Source();
    var invoked, _ := cts.Cancel();
    invoked, res := cts.CancelAfterInterval(1.0);
    scheduled := cts.token.pendingCancel != null;
    requested := cts.IsCancellationRequested();
  }

  /** After `dispose()`, `cancel()` throws `DisposedError`, the flag stays readable with its last value, and a
      second `dispose()` changes nothing. */
  method DisposeThenCancel() returns (res: Outcome, requested: bool)
    ensures res == Fail(DisposedError) && requested
  {
    var cts := new Source();
    var invoked, _ := cts.Cancel();
    cts.Dispose();
    invoked, res := cts.Cancel();
    cts.Dispose();
    requested := cts.IsCancellationRequested();
  }

  /** Registering on a disposed token returns nil. */
  method RegisterAfterDispose(observer: ObserverId) returns (reg: Registration?)
    ensures reg == null
  {
    var cts := new Source();
    cts.Dispose();
    reg := cts.token.RegisterCancellationObserver(observer);
  }

  /** A handed-out registration disposed after its token does not throw: the token's sweep already let it go. */
  method DisposeRegistrationAfterToken(observer: ObserverId) returns (res: Outcome)
    ensures res == Ok
  {
    var cts := new Source();
    var reg := cts.token.RegisterCancellationObserver(observer);
    cts.Dispose();
    res := reg.Dispose();
  }

  /** A registration built directly with `registrationWithToken` is not in the token's list; disposing it after
      the token has been disposed propagates the token's `DisposedError`. */
  method DirectRegistrationAfterTokenDispose(observer: ObserverId) returns (listed: bool, res: Outcome)
    ensures !listed && res == Fail(DisposedError)
  {
    var cts := new Source();
    var reg := new Registration(cts.token, observer);
    listed := reg in cts.token.registrations;
    cts.Dispose();
    res := reg.Dispose();
  }

  /** A delayed cancel that fires after the token was disposed changes nothing: its `DisposedError` is
      discarded. */
  method TimerAfterDispose() returns (invoked: seq<ObserverId>, requested: bool)
    ensures invoked == [] && !requested
  {
    var cts := new Source();
    var _, _ := cts.CancelAfterInterval(1.0);
    var item := cts.token.pendingCancel;
    cts.Dispose();
    invoked := cts.token.FireDelayedCancel(item);
    requested := cts.IsCancellationRequested();
  }

  /** A snapshot whose second registration was disposed after it was taken: the first observer is invoked,
      the `DisposedError` aborts the pass, and the third observer is never reached. */
  method AbortedNotificationPass(a: ObserverId, b: ObserverId, c: ObserverId)
    returns (invoked: seq<ObserverId>, res: Outcome)
    ensures invoked == [a] && res == Fail(DisposedError)
  {
    var cts := new Source();
    var r1 := new Registration(cts.token, a);
    var r2 := new Registration(cts.token, b);
    var r3 := new Registration(cts.token, c);
    var disposal := r2.Dispose();
    invoked, res := cts.token.NotifyCancellation([r1, r2, r3]);
    assert [r1, r2, r3][..1] == [r1];
  }
}
