# Cooperative cancellation in BoltsSwift, modelled in Dafny

This project models the cancellation trio of BoltsSwift: `CancellationToken`, `CancellationTokenRegistration` and
`CancellationTokenSource`. The model is sequential and object-based.

- A **token** holds four pieces of state: a monotone `cancellationRequested` flag, an ordered list of
  registrations, a monotone `disposed` flag and an optional pending delayed-cancel work item.
- A **registration** holds a `disposed` flag, an optional observer and an optional back-reference to its token.
- A **source** is a façade that owns exactly one token, fixed at construction.

Each `sync(flags: .barrier)` block of the source is one atomic step. Observers are opaque ids. Every operation
that can invoke observers returns the ids it invoked, in invocation order, so the order and number of
notifications can be stated. A `DispatchWorkItem` is a `WorkItem` object with a `cancelled` flag. The timer
firing it is an explicit step, `Token.FireDelayedCancel`.

Files:

- `outcomes.dfy`: `DisposedError`, `IntervalError`, the outcome of a throwing call, and `Option`.
- `sequences.dfy`: first-index search and first-occurrence removal by identity, with their lemmas.
- `cancellation_token.dfy`: `Token`, `Registration` and `WorkItem`. The token and its registrations refer to
  each other, so they share one module.
- `cancellation_token_source.dfy`: `Source`.
- `scenarios.dfy`: end-to-end scenarios taken from the test cases.

`Token.Valid()` is the state invariant that every state-changing method keeps. It says:

- a cancelled token has no pending work item, and a pending item is never a cancelled one;
- a disposed token lists no registrations, and the list has no duplicates;
- a registration the token handed out is listed exactly when it is not disposed;
- a live registration is bound to the token and holds its observer;
- a disposed registration has dropped both its token and its observer.

The token's "handed out" registrations are tracked in a ghost set, `issued`, that only
`RegisterCancellationObserver` extends.

Two behaviours of the code worth noting:

- `cancelAfterInterval` checks `disposed` before it checks the sign of the interval
  (Sources/BoltsSwift/CancellationToken.swift:81-85).
- A registration's `dispose()` does not swallow the token's `DisposedError`; the `try` propagates it
  (Sources/BoltsSwift/CancellationTokenRegistration.swift:33-34). Registrations handed out by
  `registerCancellationObserver` never see that error, because the token's disposal lets them go first. A
  registration built directly with the public `registrationWithToken` is not in the token's list. Disposing it
  after its token throws `DisposedError` on every call (`Scenarios.DirectRegistrationAfterTokenDispose`).

## Model

| member | source | states |
|---|---|---|
| `CancellationTokens.Token.constructor` | Sources/BoltsSwift/CancellationToken.swift:28-31 | a new token is live, not cancelled, lists nothing, has no pending item, and satisfies the invariant |
| `CancellationTokens.Token.ThrowIfDisposed` | Sources/BoltsSwift/CancellationToken.swift:127-131 | the result is `DisposedError` exactly when the token is disposed |
| `CancellationTokens.Token.RegisterCancellationObserver` | Sources/BoltsSwift/CancellationToken.swift:33-43 | on a disposed token: nil, and the list is unchanged; otherwise exactly one fresh, live registration bound to this token and holding the observer is appended at the end, even after cancellation; the flags and pending item are unchanged |
| `CancellationTokens.Token.UnregisterRegistration` | Sources/BoltsSwift/CancellationToken.swift:45-52 | `DisposedError` on a disposed token, with the list unchanged; otherwise the list becomes `RemoveFirst` of the old list: first identical element removed, or no change when it is absent |
| `CancellationTokens.Token.Cancel` | Sources/BoltsSwift/CancellationToken.swift:54-72 | `DisposedError` on a disposed token, with no change; no effect and no notification when already cancelled; otherwise the pending item is cancelled and dropped, the flag is set, and exactly the observers of the registrations listed at that moment are invoked, in list order; the list is unchanged and the invariant is kept |
| `CancellationTokens.Token.NotifyCancellation` | Sources/BoltsSwift/CancellationToken.swift:74-78 | for any snapshot, the observers of the leading run of live registrations are invoked in order; the first disposed registration aborts the pass with `DisposedError`; with no disposed registration the outcome is success |
| `CancellationTokens.Token.ListedAreLive` | Sources/BoltsSwift/CancellationToken.swift:65-66 | under the invariant every listed registration, and so every registration in cancel's snapshot, is live, bound to the token and holds an observer; the snapshot's abort path is therefore unreachable |
| `CancellationTokens.Token.CancelAfterInterval` | Sources/BoltsSwift/CancellationToken.swift:80-106 | `DisposedError` first, then `IntervalError` for a negative interval, both with no change; a zero interval has exactly `Cancel`'s effect; a positive one cancels and drops any pending item, then leaves a fresh, uncancelled item pending unless cancellation was already requested; the invariant "cancelled ⇒ no pending item" is kept |
| `CancellationTokens.Token.FireDelayedCancel` | Sources/BoltsSwift/CancellationToken.swift:101-104 | the item fired is this token's pending item or an already cancelled one; a cancelled item does nothing when fired; an uncancelled one has exactly `Cancel`'s effect, and its error is discarded |
| `CancellationTokens.Token.Dispose` | Sources/BoltsSwift/CancellationToken.swift:108-125 | afterwards the token is disposed and lists nothing; every registration listed before is disposed and has dropped its token and observer; the flag, the pending item and the issued set are unchanged; a repeat call changes nothing and cannot fail; the inner `try` is proved never to throw |
| `CancellationTokens.Registration.constructor` | Sources/BoltsSwift/CancellationTokenRegistration.swift:16-24 | a new registration is live, holds the observer and is bound to the token; it is not added to the token's list |
| `CancellationTokens.Registration.ThrowIfDisposed` | Sources/BoltsSwift/CancellationTokenRegistration.swift:47-51 | the result is `DisposedError` exactly when the registration is disposed |
| `CancellationTokens.Registration.Dispose` | Sources/BoltsSwift/CancellationTokenRegistration.swift:26-38 | the registration ends disposed, a monotone flag; while bound to a live token it removes its first occurrence from the list and drops the token and the observer; a disposed token's `DisposedError` propagates with the back-reference and the observer kept; the token's other fields are unchanged; a second call on a registration that is already disposed and has dropped its token and observer changes nothing; for a registration its token handed out the outcome is success and the token's invariant is kept |
| `CancellationTokens.Registration.NotifyDelegate` | Sources/BoltsSwift/CancellationTokenRegistration.swift:40-45 | `DisposedError`, invoking nothing, exactly when the registration is disposed; otherwise its observer, if present, is invoked exactly once |
| `CancellationTokens.Call` | Sources/BoltsSwift/CancellationTokenRegistration.swift:44 | an optional observer call invokes nothing when the observer is nil and exactly that observer, once, otherwise |
| `CancellationTokens.FirstDisposed` | Sources/BoltsSwift/CancellationToken.swift:75-77 | the position where a notification pass stops: every registration before it is live, and the one at it, if any, is disposed |
| `CancellationTokens.InvokedOncePerRegistration` | Sources/BoltsSwift/CancellationToken.swift:75-77 | when every registration holds an observer, a full pass invokes one observer per registration, the i-th being the i-th registration's |
| `CancellationTokens.InvokedAppend` | Sources/BoltsSwift/CancellationToken.swift:75-77 | notifying two lists in turn invokes the first list's observers, then the second's |
| `CancellationTokens.InvokedStep` | Sources/BoltsSwift/CancellationToken.swift:75-77 | notifying one more registration appends its observer call after the earlier ones |
| `Sequences.FirstIndex` | Sources/BoltsSwift/CancellationToken.swift:48 | the index found holds the element and no earlier position does; it is the length exactly when the element is absent |
| `Sequences.RemoveFirst` | Sources/BoltsSwift/CancellationToken.swift:48-50 | an absent element leaves the list unchanged; a present one shortens it by one |
| `Sequences.RemoveFirstSplit` | Sources/BoltsSwift/CancellationToken.swift:48-50 | removal deletes exactly the first occurrence and keeps the rest in order: `RemoveFirst(a + [x] + b, x) == a + b` when `x` is not in `a` |
| `Sequences.RemoveFirstDistinct` | Sources/BoltsSwift/CancellationToken.swift:48-50 | on a duplicate-free list, removal keeps the list duplicate-free and removes exactly the element given |
| `CancellationTokenSources.Source.constructor` | Sources/BoltsSwift/CancellationTokenSource.swift:11-19 | the source owns a fresh, live, uncancelled token with an empty list; `token` is a constant, so it is never reassigned |
| `CancellationTokenSources.Source.IsCancellationRequested` | Sources/BoltsSwift/CancellationTokenSource.swift:21-23 | always equals the token's flag, in every state, disposed or not |
| `CancellationTokenSources.Source.Cancel` | Sources/BoltsSwift/CancellationTokenSource.swift:25-27 | exactly the token's `Cancel` effect and outcome |
| `CancellationTokenSources.Source.CancelAfterInterval` | Sources/BoltsSwift/CancellationTokenSource.swift:29-31 | exactly the token's `CancelAfterInterval` effect and outcome |
| `CancellationTokenSources.Source.Dispose` | Sources/BoltsSwift/CancellationTokenSource.swift:33-35 | exactly the token's `Dispose` effect; it cannot fail |
| `Scenarios.CancelTwice` | Tests/CancellationTests.swift:13-36 | a fresh source is not cancelled; after `cancel()` it is; a second `cancel()` succeeds, notifies no one and leaves the flag set |
| `Scenarios.NotifyInOrder` | Sources/BoltsSwift/CancellationToken.swift:66-77 | two observers registered in turn are invoked in registration order, once each, because cancel copies the list and notifies it front to back; this extends the one-observer test at Tests/CancellationTests.swift:38-50 |
| `Scenarios.LateRegistration` | Sources/BoltsSwift/CancellationToken.swift:54-72 | an observer registered after cancellation is listed but never invoked |
| `Scenarios.DisposeRegistrationBeforeCancel` | Tests/CancellationTests.swift:121-128 | a registration disposed before `cancel()` is not notified |
| `Scenarios.DisposeRegistrationTwice` | Tests/CancellationTests.swift:130-139 | disposing a registration twice succeeds both times and leaves it unlisted |
| `Scenarios.CancelAfterDelay` | Tests/CancellationTests.swift:52-66 | a positive interval does not cancel at once; firing the pending item cancels |
| `Scenarios.IntervalSigns` | Tests/CancellationTests.swift:68-86 | a negative interval gives `IntervalError` and no cancellation; a zero interval cancels at once |
| `Scenarios.DelayOnCancelled` | Tests/CancellationTests.swift:87-97 | a delayed cancel on a cancelled source schedules nothing, and the source stays cancelled |
| `Scenarios.DisposeThenCancel` | Tests/CancellationTests.swift:99-119 | after `dispose()`, `cancel()` gives `DisposedError`, the flag keeps its last value, and a second `dispose()` is harmless |
| `Scenarios.RegisterAfterDispose` | Sources/BoltsSwift/CancellationToken.swift:35-38 | registering on a disposed token returns nil |
| `Scenarios.DisposeRegistrationAfterToken` | Tests/CancellationTests.swift:150-157 | a handed-out registration disposed after its token was disposed gives no error |
| `Scenarios.DirectRegistrationAfterTokenDispose` | Sources/BoltsSwift/CancellationTokenRegistration.swift:22-38 | a registration built with `registrationWithToken` is not listed, and disposing it after its token gives `DisposedError` |
| `Scenarios.TimerAfterDispose` | Sources/BoltsSwift/CancellationToken.swift:101-102 | a delayed cancel firing after disposal invokes nothing and leaves the token uncancelled; its error is discarded |
| `Scenarios.AbortedNotificationPass` | Sources/BoltsSwift/CancellationToken.swift:74-78 | with the second of three snapshotted registrations disposed, only the first observer is invoked and the pass ends with `DisposedError` |

## Left out

- GCD queues and barrier `sync` blocks are not modelled. Each block is one atomic step and no interleavings are considered, so thread safety is not a claim of this model.
- CancellationTokenSource's concurrency guarantees are likewise not modelled.
- The second `throwIfDisposed` inside `cancelAfterInterval`'s `sync` block (Sources/BoltsSwift/CancellationToken.swift:93) is not modelled. It guards only against a race with a concurrent `dispose()`, and in a sequential model it always passes after the first check.
- Observer bodies are not modelled. Observers are ids, so re-entrant observer code that disposes a registration during a notification pass is not modelled. `Token.NotifyCancellation` states the abort behaviour for any snapshot. `Token.ListedAreLive` shows that without re-entrancy, cancel's own snapshot never contains a disposed registration.
- Real time is not modelled: `DispatchTime`, `asyncAfter`, and spinning the run loop in the tests. Scheduling leaves the item pending, and the timer firing is the explicit `Token.FireDelayedCancel` step, which the environment calls with the item. Its precondition says the item is the token's pending one or already cancelled, which holds in every reachable state: `cancel` and `cancelAfterInterval` cancel an item before they drop it.
- GCD running a work item at most once is not modelled. A work item fired on a disposed token stays pending, so it can be fired again, with the same null effect.
- `TimeInterval` is a `real` and not a `Double`. Only its comparisons with zero matter.
- Weak references and deallocation (ARC) are not modelled. The back-reference and the `[weak self]` capture are ordinary references that are never cleared by deallocation.
- The `cancellationRequested` getter (Sources/BoltsSwift/CancellationToken.swift:13-20) is a plain field read. It has no disposed check, so it is readable in every state.
- `CancellationTokenSource.cancellationTokenSource` (Sources/BoltsSwift/CancellationTokenSource.swift:17-19) only calls `init`. It is covered by `Source.constructor`.
- `CancellationTokenRegistration.registrationWithToken` (Sources/BoltsSwift/CancellationTokenRegistration.swift:22-24) only calls `init`. It is covered by `Registration.constructor`.
- Sources/BoltsSwift/Task+Delay.swift is not part of this model. It is glue between GCD timers and `Task`/`TaskCompletionSource`, whose semantics are not available here.
