/** CancellationToken and CancellationTokenRegistration (Sources/BoltsSwift/CancellationToken.swift and
    Sources/BoltsSwift/CancellationTokenRegistration.swift). The two classes refer to each other, so they share
    one module. Every `sync(flags: .barrier)` block is one atomic step; observers are opaque ids, and a call
    returns the ids of the observers it invoked, in invocation order. */
module CancellationTokens {
  import opened Outcomes
  import opened Sequences

  /** An observer (`() -> Void`), identified by an opaque id. */
  type ObserverId = int

  /** The observers invoked by calling an optional observer (`_observer?()`): none or exactly one. */
  function Call(observer: Option<ObserverId>): (invoked: seq<ObserverId>)
    ensures |invoked| <= 1
    ensures observer.None? <==> invoked == []
    ensures observer.Some? ==> invoked == [observer.value]
  {
    match observer
    case None => []
    case Some(o) => [o]
  }

  /** The observers invoked when every registration of `s` is notified in turn and none of them is disposed. */
  function Invoked(s: seq<Registration>): seq<ObserverId>
    reads s
  {
    if s == [] then [] else Call(s[0].observer) + Invoked(s[1..])
  }

  /** Notifying `a` then `b` invokes `a`'s observers, then `b`'s. */
  lemma {:induction false} InvokedAppend(a: seq<Registration>, b: seq<Registration>)
    ensures Invoked(a + b) == Invoked(a) + Invoked(b)
  {
    if a == [] {
      assert a + b == b;
    } else {
      assert (a + b)[1..] == a[1..] + b;
      InvokedAppend(a[1..], b);
    }
  }

  /** Notifying one more registration of `s` invokes its observer after the earlier ones. */
  lemma InvokedStep(s: seq<Registration>, i: nat)
    requires i < |s|
    ensures Invoked(s[..i + 1]) == Invoked(s[..i]) + Call(s[i].observer)
  {
    assert s[..i + 1] == s[..i] + [s[i]];
    InvokedAppend(s[..i], [s[i]]);
  }

  /** When every registration holds an observer, each is invoked exactly once, in list order. */
  lemma {:induction false} InvokedOncePerRegistration(s: seq<Registration>)
    requires forall i :: 0 <= i < |s| ==> s[i].observer.Some?
    ensures |Invoked(s)| == |s|
    ensures forall i :: 0 <= i < |s| ==> Invoked(s)[i] == s[i].observer.value
  {
    if s != [] {
      InvokedOncePerRegistration(s[1..]);
    }
  }

  /** The position of the first disposed registration of `s`, or `|s|` when all are live. */
  function FirstDisposed(s: seq<Registration>): (k: nat)
    reads s
    ensures k <= |s|
    ensures forall j :: 0 <= j < k ==> !s[j].disposed
    ensures k < |s| ==> s[k].disposed
  {
    if s == [] || s[0].disposed then 0 else 1 + FirstDisposed(s[1..])
  }

  /** A pending delayed cancellation (a `DispatchWorkItem`). Once cancelled, it never runs. */
  class WorkItem {
    var cancelled: bool

    constructor ()
      ensures !cancelled
    {
      cancelled := false;
    }
  }

  class Token {
    var cancellationRequested: bool
    /** The registrations in insertion order, which is notification order. */
    var registrations: seq<Registration>
    var disposed: bool
    /** The pending delayed-cancel work item, if any. */
    var pendingCancel: WorkItem?
    /** Every registration this token has handed out from `RegisterCancellationObserver`. */
    ghost var issued: set<Registration>

    /** The state invariant. A cancelled token has no pending timer; the pending item is never a cancelled one;
        a disposed token lists nothing; an issued registration is listed exactly when it is live; a live one is
        bound to this token and holds its observer, and a disposed one has let go of both. */
    ghost predicate Valid()
      reads this, issued, pendingCancel
    {
      (cancellationRequested ==> pendingCancel == null)
      && (pendingCancel != null ==> !pendingCancel.cancelled)
      && (disposed ==> registrations == [])
      && NoDuplicates(registrations)
      && (forall r :: r in registrations ==> r in issued)
      && (forall r :: r in issued ==> r.HeldBy(this, r in registrations))
    }

    /** Every listed registration is live, bound to this token and holds its observer. */
    lemma ListedAreLive()
      requires Valid()
      ensures forall i :: 0 <= i < |registrations| ==>
                !registrations[i].disposed && registrations[i].token == this && registrations[i].observer.Some?
    {
      forall i | 0 <= i < |registrations|
        ensures !registrations[i].disposed && registrations[i].token == this && registrations[i].observer.Some?
      {
        assert registrations[i].HeldBy(this, registrations[i] in registrations);
      }
    }

    constructor ()
      ensures Valid()
      ensures !cancellationRequested && registrations == [] && !disposed && pendingCancel == null
      ensures issued == {}
    {
      cancellationRequested := false;
      registrations := [];
      disposed := false;
      pendingCancel := null;
      issued := {};
    }

    /** `throwIfDisposed`: the outcome of a call that must not run on a disposed token. */
    function ThrowIfDisposed(): (res: Outcome)
      reads this
      ensures res.Fail? <==> disposed
      ensures res.Fail? ==> res.error == DisposedError
    {
      if disposed then Fail(DisposedError) else Ok
    }

    /** The effect of one `cancel()` on the token's own fields and the observers it invokes: nothing on a
        disposed or already cancelled token; otherwise the flag is set, the pending item is dropped and the
        observers of the registrations listed at that moment are invoked in order. */
    twostate predicate CancelEffect(invoked: seq<ObserverId>)
      reads this, registrations
    {
      registrations == old(registrations) && disposed == old(disposed) && issued == old(issued)
      && if old(disposed) || old(cancellationRequested) then
           invoked == [] && cancellationRequested == old(cancellationRequested)
           && pendingCancel == old(pendingCancel)
         else
           invoked == Invoked(registrations) && cancellationRequested && pendingCancel == null
    }

    /** The effect of one `cancelAfterInterval(interval)` on the token's own fields, with the observers it
        invokes and its outcome: `DisposedError` before anything else, then `IntervalError` for a negative
        interval, both without any change; a zero interval is a `cancel()`; a positive one drops any pending
        item and, unless cancellation was already requested, leaves a fresh uncancelled item pending. */
    twostate predicate CancelAfterIntervalEffect(interval: real, invoked: seq<ObserverId>, res: Outcome)
      reads this, registrations, pendingCancel
    {
      if old(disposed) || interval < 0.0 then
        res == (if old(disposed) then Fail(DisposedError) else Fail(IntervalError))
        && invoked == [] && registrations == old(registrations) && disposed == old(disposed)
        && issued == old(issued) && cancellationRequested == old(cancellationRequested)
        && pendingCancel == old(pendingCancel)
      else if interval == 0.0 then
        res == Ok && CancelEffect(invoked)
      else
        res == Ok && invoked == []
        && registrations == old(registrations) && disposed == old(disposed) && issued == old(issued)
        && cancellationRequested == old(cancellationRequested)
        && if cancellationRequested then pendingCancel == null
           else pendingCancel != null && fresh(pendingCancel) && !pendingCancel.cancelled
    }

    /** `registerCancellationObserver`: nil on a disposed token; otherwise one fresh live registration is
        appended, whether or not cancellation was already requested. */
    method RegisterCancellationObserver(observer: ObserverId) returns (reg: Registration?)
      requires Valid()
      modifies this
      ensures Valid()
      ensures cancellationRequested == old(cancellationRequested) && disposed == old(disposed)
      ensures pendingCancel == old(pendingCancel)
      ensures old(disposed) ==> reg == null && registrations == old(registrations) && issued == old(issued)
      ensures !old(disposed) ==>
                reg != null && fresh(reg) && registrations == old(registrations) + [reg]
                && issued == old(issued) + {reg}
                && !reg.disposed && reg.token == this && reg.observer == Some(observer)
    {
      if disposed {
        return null;
      }
      reg := new Registration(this, observer);
      registrations := registrations + [reg];
      issued := issued + {reg};
    }

    /** `unrigsterRegistration`: throws on a disposed token; otherwise removes the first element identical to
        `registration`, keeping the order of the rest, and does nothing when it is absent. */
    method UnregisterRegistration(registration: Registration) returns (res: Outcome)
      modifies this`registrations
      ensures res == old(ThrowIfDisposed())
      ensures old(disposed) ==> registrations == old(registrations)
      ensures !old(disposed) ==> registrations == RemoveFirst(old(registrations), registration)
    {
      res := ThrowIfDisposed();
      if res.Fail? {
        return;
      }
      var i := FirstIndex(registrations, registration);
      if i < |registrations| {
        registrations := registrations[..i] + registrations[i + 1..];
      }
    }

    /** `cancel`: throws on a disposed token; returns at once when cancellation was already requested;
        otherwise cancels and drops the pending item, sets the flag and notifies the snapshot of the list. */
    method Cancel() returns (invoked: seq<ObserverId>, res: Outcome)
      requires Valid()
      modifies this, pendingCancel
      ensures Valid()
      ensures res == old(ThrowIfDisposed())
      ensures CancelEffect(invoked)
      ensures old(pendingCancel) != null ==>
                old(pendingCancel).cancelled == (old(pendingCancel.cancelled) || !old(disposed))
    {
      res := ThrowIfDisposed();
      if res.Fail? {
        return [], res;
      }
      if cancellationRequested {
        return [], Ok;
      }
      if pendingCancel != null {
        pendingCancel.cancelled := true;
        pendingCancel := null;
      }
      cancellationRequested := true;
      var snapshot := registrations;
      ListedAreLive();
      assert FirstDisposed(snapshot) == |snapshot|;
      assert snapshot[..|snapshot|] == snapshot;
      invoked, res := NotifyCancellation(snapshot);
    }

    /** `notifyCancellation`: notifies the registrations of `snapshot` in order and stops at the first one that
        throws, that is the first disposed one; the observers before it have been invoked. */
    method NotifyCancellation(snapshot: seq<Registration>) returns (invoked: seq<ObserverId>, res: Outcome)
      ensures var k := FirstDisposed(snapshot);
              invoked == Invoked(snapshot[..k])
              && res == if k < |snapshot| then Fail(DisposedError) else Ok
    {
      invoked := [];
      var i := 0;
      while i < |snapshot|
        invariant i <= |snapshot|
        invariant i <= FirstDisposed(snapshot)
        invariant invoked == Invoked(snapshot[..i])
      {
        var calls;
        calls, res := snapshot[i].NotifyDelegate();
        if res.Fail? {
          return;
        }
        InvokedStep(snapshot, i);
        invoked := invoked + calls;
        i := i + 1;
      }
      assert snapshot[..i] == snapshot;
      res := Ok;
    }

    /** `cancelAfterInterval`: throws on a disposed token (checked first), rejects a negative interval, cancels
        at once for a zero interval, and otherwise cancels any pending item and, unless cancellation was already
        requested, schedules a fresh one. */
    method CancelAfterInterval(interval: real) returns (invoked: seq<ObserverId>, res: Outcome)
      requires Valid()
      modifies this, pendingCancel
      ensures Valid()
      ensures CancelAfterIntervalEffect(interval, invoked, res)
      ensures old(pendingCancel) != null ==>
                old(pendingCancel).cancelled
                == (old(pendingCancel.cancelled) || (!old(disposed) && interval >= 0.0))
    {
      res := ThrowIfDisposed();
      if res.Fail? {
        return [], res;
      }
      if interval < 0.0 {
        return [], Fail(IntervalError);
      }
      if interval == 0.0 {
        invoked, res := Cancel();
        return;
      }
      if pendingCancel != null {
        pendingCancel.cancelled := true;
        pendingCancel := null;
      }
      if cancellationRequested {
        return [], Ok;
      }
      pendingCancel := new WorkItem();
      invoked := [];
    }

    /** The timer firing `item`, an item this token scheduled: a cancelled item does not run; otherwise it
        calls `cancel()` and discards any error (`try? self?.cancel()`). The item's closure captures its own
        token, and `cancel` and `cancelAfterInterval` cancel an item before they drop it, so an item that is
        still uncancelled is this token's pending one. */
    method FireDelayedCancel(item: WorkItem) returns (invoked: seq<ObserverId>)
      requires Valid()
      requires item.cancelled || item == pendingCancel
      modifies this, pendingCancel
      ensures Valid()
      ensures old(item.cancelled) ==>
                unchanged(this) && invoked == []
                && (pendingCancel != null ==> pendingCancel.cancelled == old(pendingCancel.cancelled))
      ensures !old(item.cancelled) ==> CancelEffect(invoked)
      ensures !old(item.cancelled) && old(pendingCancel) != null ==>
                old(pendingCancel).cancelled == (old(pendingCancel.cancelled) || !old(disposed))
    {
      invoked := [];
      if !item.cancelled {
        var discarded;
        invoked, discarded := Cancel();
      }
    }

    /** `dispose`: the first call empties the list, disposes every registration that was listed and then marks
        the token disposed; a repeat call changes nothing. The flag and the pending item are never touched. */
    method Dispose()
      requires Valid()
      modifies this, registrations
      ensures Valid()
      ensures disposed && registrations == []
      ensures cancellationRequested == old(cancellationRequested) && pendingCancel == old(pendingCancel)
      ensures issued == old(issued)
      ensures old(disposed) ==> unchanged(this)
      ensures forall r :: r in old(registrations) ==> r.disposed && r.token == null && r.observer == None
    {
      if !disposed {
        var snapshot := registrations;
        ListedAreLive();
        registrations := [];
        var i := 0;
        while i < |snapshot|
          invariant i <= |snapshot|
          invariant registrations == [] && !disposed && issued == old(issued)
          invariant cancellationRequested == old(cancellationRequested) && pendingCancel == old(pendingCancel)
          invariant forall j :: 0 <= j < i ==>
                      snapshot[j].disposed && snapshot[j].token == null && snapshot[j].observer == None
          invariant forall j :: i <= j < |snapshot| ==>
                      !snapshot[j].disposed && snapshot[j].token == this
                      && snapshot[j].observer == old(snapshot[j].observer)
        {
          var r := snapshot[i];
          var e := r.Dispose();
          // The `try` of the sweep never throws: the token is not yet disposed.
          assert e == Ok;
          i := i + 1;
        }
      }
      disposed := true;
    }
  }

  class Registration {
    var disposed: bool
    var observer: Option<ObserverId>
    /** The back-reference to the token (a weak reference in the source). */
    var token: Token?

    /** `init` / `registrationWithToken`: a live registration bound to `token` and holding `observer`.
        It does not add itself to the token's list. */
    constructor (token: Token, observer: ObserverId)
      ensures !disposed && this.observer == Some(observer) && this.token == token
    {
      disposed := false;
      this.observer := Some(observer);
      this.token := token;
    }

    /** How a registration handed out by `t` stands: it is listed exactly when it is live; a live one is bound
        to `t` and holds its observer, and a disposed one has let go of both. */
    ghost predicate HeldBy(t: Token, listed: bool)
      reads this
    {
      listed == !disposed
      && if disposed then token == null && observer == None else token == t && observer.Some?
    }

    /** `throwIfDisposed`: the outcome of a call that must not run on a disposed registration. */
    function ThrowIfDisposed(): (res: Outcome)
      reads this
      ensures res.Fail? <==> disposed
      ensures res.Fail? ==> res.error == DisposedError
    {
      if disposed then Fail(DisposedError) else Ok
    }

    /** `dispose`: marks the registration disposed; while it is still bound, unregisters itself from its token,
        propagating the token's `DisposedError`, and drops the back-reference; then drops the observer.
        A registration its token handed out never sees that error, and its token stays valid. */
    method Dispose() returns (res: Outcome)
      modifies this, token
      ensures disposed
      ensures old(token) == null ==> res == Ok && token == null && observer == None
      ensures old(disposed) && old(token) == null && old(observer) == None ==> unchanged(this)
      ensures old(token) != null ==>
                old(token).cancellationRequested == old(token.cancellationRequested)
                && old(token).disposed == old(token.disposed)
                && old(token).pendingCancel == old(token.pendingCancel)
                && old(token).issued == old(token.issued)
      ensures old(token) != null && old(token.disposed) ==>
                res == Fail(DisposedError) && token == old(token) && observer == old(observer)
                && old(token).registrations == old(token.registrations)
      ensures old(token) != null && !old(token.disposed) ==>
                res == Ok && token == null && observer == None
                && old(token).registrations == RemoveFirst(old(token.registrations), this)
      ensures old(token) != null && old(token.Valid()) && this in old(token.issued) ==>
                res == Ok && old(token).Valid()
    {
      ghost var wasValid := token != null && token.Valid() && this in token.issued;
      ghost var listed := if token != null then token.registrations else [];
      if !disposed {
        disposed := true;
      }
      if token != null {
        res := token.UnregisterRegistration(this);
        if res.Fail? {
          return;
        }
        if wasValid {
          RemoveFirstDistinct(listed, this);
        }
        token := null;
      }
      observer := None;
      res := Ok;
    }

    /** `notifyDelegate`: throws on a disposed registration without invoking anything; otherwise invokes the
        observer, if it still holds one, exactly once. */
    method NotifyDelegate() returns (invoked: seq<ObserverId>, res: Outcome)
      ensures res.Fail? <==> disposed
      ensures res.Fail? ==> res == Fail(DisposedError) && invoked == []
      ensures res.Ok? ==> invoked == Call(observer)
    {
      res := ThrowIfDisposed();
      if res.Fail? {
        return [], res;
      }
      invoked := Call(observer);
    }
  }
}
