/**
 * The polling synchroniser of the application shell: the repeating refresh timer, the
 * change detection on the sheet's modification token, and the one-shot retry after a
 * failed check.
 *
 * The pure part (`Poller` and the functions over it) states what each operation does to the
 * state; the class `Synchronizer` holds the same state in mutable fields, as the component's
 * refs do, and its methods are proved to perform exactly those transitions.
 */
module Polling {
  import opened Wrappers

  /** A handle returned by `setInterval`; browsers hand out positive integers, so a stored handle is truthy. */
  type TimerId = n: int | n > 0 witness 1

  /** The sheet's modification time, an opaque string. */
  type Token = string

  /** JavaScript truthiness of the stored token: `null` and `""` are both falsy. */
  predicate IsSet(t: Option<Token>)
  {
    t.Some? && t.value != ""
  }

  /** The reload test: no token stored yet (falsy), or the fetched token differs from the stored one. */
  predicate Changed(stored: Option<Token>, fetched: Option<Token>)
    ensures !Changed(stored, fetched) ==> stored == fetched && IsSet(fetched)
    ensures IsSet(fetched) && stored == fetched ==> !Changed(stored, fetched)
    ensures fetched.None? || fetched == Some("") ==> Changed(stored, fetched)
  {
    !IsSet(stored) || stored != fetched
  }

  /**
   * What the metadata request settled to: the `modifiedTime` property, which may be absent from
   * the response, or a failure (a rejected request or a response without `properties`).
   */
  datatype FetchResult = Fetched(modifiedTime: Option<Token>) | FetchFailed

  /** The effect one check triggered: a full reload, nothing, or one deferred retry. */
  datatype CheckOutcome = Reload | NoChange | RetryScheduled

  /** The effect of a deferred retry firing: nothing (no timer left), or a new check. */
  datatype RetryOutcome = Inert | Rechecked(outcome: CheckOutcome)

  /**
   * The synchroniser's state together with the browser timers it has created:
   * `timer` is the stored interval handle, `lastModified` the stored token, `intervals` the
   * intervals registered with the browser and not yet cleared, `nextId` the handle the next
   * `setInterval` returns, and `pendingRetries` the one-shot retries scheduled and not yet fired.
   */
  datatype Poller = Poller(
    timer: Option<TimerId>,
    lastModified: Option<Token>,
    intervals: set<TimerId>,
    nextId: TimerId,
    pendingRetries: nat)

  /** Before the first start: no timer, no token, nothing scheduled. */
  const Initial: Poller := Poller(None, None, {}, 1, 0)

  /**
   * No interval leaks: the browser runs an interval exactly when one handle is stored, and that
   * handle is older than every handle still to be handed out.
   */
  predicate Consistent(p: Poller)
  {
    && (p.timer.None? ==> p.intervals == {})
    && (p.timer.Some? ==> p.intervals == {p.timer.value} && p.timer.value < p.nextId)
  }

  /** `stopAutoRefresh`: clear the stored interval, if any, and forget its handle. */
  function Stop(p: Poller): (q: Poller)
    ensures q.timer.None?
    ensures p.timer.None? ==> q == p
    ensures p.timer.Some? ==> q.intervals == p.intervals - {p.timer.value}
    ensures q.lastModified == p.lastModified && q.nextId == p.nextId
    ensures q.pendingRetries == p.pendingRetries
    ensures Consistent(p) ==> Consistent(q) && q.intervals == {}
  {
    if p.timer.Some? then p.(timer := None, intervals := p.intervals - {p.timer.value}) else p
  }

  /** `startAutoRefresh`: stop first, then register a new interval and store its handle. */
  function Start(p: Poller): (q: Poller)
    ensures q.timer == Some(p.nextId) && q.nextId == p.nextId + 1
    ensures q.intervals == Stop(p).intervals + {p.nextId}
    ensures q.lastModified == p.lastModified && q.pendingRetries == p.pendingRetries
    ensures Consistent(p) ==> Consistent(q) && q.intervals == {p.nextId}
    ensures Consistent(p) && p.timer.Some? ==> p.timer.value !in q.intervals
  {
    var s := Stop(p);
    s.(timer := Some(s.nextId), intervals := s.intervals + {s.nextId}, nextId := s.nextId + 1)
  }

  /** `checkForUpdates` once its metadata request has settled. */
  function Check(p: Poller, r: FetchResult): (res: (Poller, CheckOutcome))
    ensures IsSet(p.lastModified) && r == Fetched(p.lastModified) ==> res == (p, NoChange)
    ensures r.Fetched? && r.modifiedTime != p.lastModified ==>
              res == (p.(lastModified := r.modifiedTime), Reload)
    ensures r.Fetched? && !IsSet(p.lastModified) ==>
              res == (p.(lastModified := r.modifiedTime), Reload)
    ensures r.FetchFailed? ==> res == (p.(pendingRetries := p.pendingRetries + 1), RetryScheduled)
  {
    match r
    case FetchFailed => (p.(pendingRetries := p.pendingRetries + 1), RetryScheduled)
    case Fetched(t) =>
      if Changed(p.lastModified, t) then (p.(lastModified := t), Reload) else (p, NoChange)
  }

  /**
   * A deferred retry fires: it is used up, and it re-checks only if a timer handle is stored
   * (any handle: one stored by a later start re-arms it).
   */
  function Retry(p: Poller, r: FetchResult): (res: (Poller, RetryOutcome))
    requires p.pendingRetries > 0
    ensures p.timer.None? ==> res == (p.(pendingRetries := p.pendingRetries - 1), Inert)
    ensures p.timer.Some? ==>
              res.1.Rechecked? &&
              (res.0, res.1.outcome) == Check(p.(pendingRetries := p.pendingRetries - 1), r)
    ensures p.timer.Some? && r.FetchFailed? ==> res == (p, Rechecked(RetryScheduled))
  {
    var q := p.(pendingRetries := p.pendingRetries - 1);
    if q.timer.Some? then
      var (after, outcome) := Check(q, r);
      (after, Rechecked(outcome))
    else
      (q, Inert)
  }

  /** The events the synchroniser reacts to. */
  datatype Event =
    | ClientReady(signedIn: bool)      // the client finished initialising
    | SignInChanged(signedIn: bool)    // the sign-in listener fired
    | SignOutClicked
    | Unmounted
    | IntervalFired(result: FetchResult)
    | RetryFired(result: FetchResult)

  /**
   * One event: the new state, and whether `loadData` was called. An interval fires only while
   * one is stored, and a retry only while one is pending; otherwise the event does not occur
   * and the state is left as it is.
   */
  function Step(p: Poller, e: Event): (res: (Poller, bool))
    ensures e.SignInChanged? || e.ClientReady? ==> res.1 == e.signedIn
    ensures e.SignInChanged? ==> res.0 == if e.signedIn then Start(p) else Stop(p)
    ensures e.SignOutClicked? || e.Unmounted? ==> res == (Stop(p), false)
    ensures e.IntervalFired? && p.timer.None? ==> res == (p, false)
    ensures e.RetryFired? && p.timer.None? ==> !res.1 && res.0.lastModified == p.lastModified
    ensures res.1 ==> res.0.lastModified != p.lastModified || !IsSet(p.lastModified) || e.ClientReady? || e.SignInChanged?
  {
    match e
    case ClientReady(b) => if b then (Start(p), true) else (p, false)
    case SignInChanged(b) => if b then (Start(p), true) else (Stop(p), false)
    case SignOutClicked => (Stop(p), false)
    case Unmounted => (Stop(p), false)
    case IntervalFired(r) =>
      if p.timer.Some? then
        var (q, o) := Check(p, r);
        (q, o == Reload)
      else (p, false)
    case RetryFired(r) =>
      if p.pendingRetries > 0 then
        var (q, o) := Retry(p, r);
        (q, o == Rechecked(Reload))
      else (p, false)
  }

  /** A run of events: the final state and the number of reloads triggered. */
  function Run(p: Poller, es: seq<Event>): (Poller, nat)
    decreases |es|
  {
    if es == [] then (p, 0)
    else
      var (q, loaded) := Step(p, es[0]);
      var (final, n) := Run(q, es[1..]);
      (final, n + if loaded then 1 else 0)
  }

  /** Every event keeps the timers consistent. */
  lemma StepConsistent(p: Poller, e: Event)
    requires Consistent(p)
    ensures Consistent(Step(p, e).0)
  {
  }

  /**
   * After any sequence of starts, stops, sign-in changes, ticks and retries, at most one
   * interval is registered with the browser, and it is the stored one.
   */
  lemma {:induction false} AtMostOneInterval(p: Poller, es: seq<Event>)
    requires Consistent(p)
    ensures Consistent(Run(p, es).0)
    ensures |Run(p, es).0.intervals| <= 1
    decreases |es|
  {
    if es != [] {
      StepConsistent(p, es[0]);
      AtMostOneInterval(Step(p, es[0]).0, es[1..]);
    }
  }

  /** After a stop, every pending retry that fires is used up and does nothing else. */
  lemma {:induction false} RetriesInertWhileStopped(p: Poller, es: seq<Event>)
    requires p.timer.None?
    requires |es| <= p.pendingRetries
    requires forall i :: 0 <= i < |es| ==> es[i].RetryFired?
    ensures Run(p, es) == (p.(pendingRetries := p.pendingRetries - |es|), 0)
    decreases |es|
  {
    if es != [] {
      var q := p.(pendingRetries := p.pendingRetries - 1);
      assert Step(p, es[0]) == (q, false);
      RetriesInertWhileStopped(q, es[1..]);
    }
  }

  /**
   * While the sheet keeps one (non-empty) modification token, ticks reload at most once, and
   * not at all once that token is stored.
   */
  lemma {:induction false} StableTokenReloadsOnce(p: Poller, t: Token, es: seq<Event>)
    requires t != "" && p.timer.Some?
    requires forall i :: 0 <= i < |es| ==> es[i] == IntervalFired(Fetched(Some(t)))
    ensures Run(p, es).1 <= 1
    ensures p.lastModified == Some(t) ==> Run(p, es).1 == 0
    decreases |es|
  {
    if es != [] {
      var q := Step(p, es[0]).0;
      assert q == p.(lastModified := Some(t));
      StableTokenReloadsOnce(q, t, es[1..]);
    }
  }

  /** When the response carries no usable token, every tick reloads the whole sheet. */
  lemma {:induction false} MissingTokenReloadsEveryTick(p: Poller, t: Option<Token>, es: seq<Event>)
    requires !IsSet(t) && p.timer.Some? && !IsSet(p.lastModified)
    requires forall i :: 0 <= i < |es| ==> es[i] == IntervalFired(Fetched(t))
    ensures Run(p, es).1 == |es|
    decreases |es|
  {
    if es != [] {
      var q := Step(p, es[0]).0;
      assert q == p.(lastModified := t);
      MissingTokenReloadsEveryTick(q, t, es[1..]);
    }
  }

  /**
   * The synchroniser as the component holds it: two refs (`timer`, `lastModified`), the
   * browser's timer bookkeeping, and the sign-in and error state the listener updates.
   */
  class Synchronizer {
    var timer: Option<TimerId>
    var lastModified: Option<Token>
    var intervals: set<TimerId>
    var nextId: TimerId
    var pendingRetries: nat
    var signedIn: bool
    var authError: Option<string>

    /** The pure view of the fields the synchroniser owns. */
    function State(): Poller
      reads this
    {
      Poller(timer, lastModified, intervals, nextId, pendingRetries)
    }

    constructor ()
      ensures State() == Initial && Consistent(State())
      ensures !signedIn && authError == None
    {
      timer, lastModified, intervals, nextId, pendingRetries := None, None, {}, 1, 0;
      signedIn, authError := false, None;
    }

    /** `stopAutoRefresh`; also the unmount cleanup. */
    method StopAutoRefresh()
      modifies this
      ensures State() == Stop(old(State()))
      ensures signedIn == old(signedIn) && authError == old(authError)
    {
      if timer.Some? {
        intervals := intervals - {timer.value};
        timer := None;
      }
    }

    /** `startAutoRefresh`: always stops the old interval before creating the new one. */
    method StartAutoRefresh()
      modifies this
      ensures State() == Start(old(State()))
      ensures Consistent(old(State())) ==> Consistent(State()) && |intervals| == 1
      ensures signedIn == old(signedIn) && authError == old(authError)
    {
      StopAutoRefresh();
      var id := nextId;
      nextId := nextId + 1;
      intervals := intervals + {id};
      timer := Some(id);
    }

    /** `checkForUpdates`, given what the metadata request settled to. */
    method CheckForUpdates(r: FetchResult) returns (outcome: CheckOutcome)
      modifies this
      ensures (State(), outcome) == Check(old(State()), r)
      ensures signedIn == old(signedIn) && authError == old(authError)
    {
      match r {
        case FetchFailed =>
          pendingRetries := pendingRetries + 1;
          outcome := RetryScheduled;
        case Fetched(t) =>
          if Changed(lastModified, t) {
            lastModified := t;
            outcome := Reload;
          } else {
            outcome := NoChange;
          }
      }
    }

    /** The deferred retry's callback fires. */
    method RetryFires(r: FetchResult) returns (outcome: RetryOutcome)
      requires pendingRetries > 0
      modifies this
      ensures (State(), outcome) == Retry(old(State()), r)
      ensures signedIn == old(signedIn) && authError == old(authError)
    {
      pendingRetries := pendingRetries - 1;
      if timer.Some? {
        var o := CheckForUpdates(r);
        outcome := Rechecked(o);
      } else {
        outcome := Inert;
      }
    }

    /** The sign-in listener: `true` loads and (re)starts polling, `false` stops it. */
    method OnSignInChanged(nowSignedIn: bool) returns (load: bool)
      modifies this
      ensures signedIn == nowSignedIn && load == nowSignedIn && authError == old(authError)
      ensures State() == if nowSignedIn then Start(old(State())) else Stop(old(State()))
    {
      signedIn := nowSignedIn;
      if nowSignedIn {
        load := true;
        StartAutoRefresh();
      } else {
        load := false;
        StopAutoRefresh();
      }
    }

    /**
     * `signOut`: stops polling before asking the provider to sign out; the provider's
     * notification arrives later through `OnSignInChanged(false)`.
     */
    method SignOut()
      modifies this
      ensures State() == Stop(old(State())) && State().timer.None?
      ensures signedIn == old(signedIn) && authError == old(authError)
    {
      StopAutoRefresh();
    }

    /**
     * `signIn`: the provider call is not awaited, so only a synchronous throw reaches the
     * `catch`; it records its message, or a fixed text when the message is empty. A later
     * rejection of the returned promise (`None` here) changes nothing.
     */
    method SignIn(failure: Option<string>)
      modifies this
      ensures State() == old(State()) && signedIn == old(signedIn)
      ensures failure.None? ==> authError == old(authError)
      ensures failure.Some? ==>
                authError == Some(if failure.value == "" then "Failed to sign in" else failure.value)
    {
      if failure.Some? {
        authError := Some(if failure.value == "" then "Failed to sign in" else failure.value);
      }
    }

    /**
     * `initClient` once the client library has settled: either the initial sign-in state
     * (signed in: load and start polling) or the message of the error thrown.
     */
    method Initialize(init: Result<bool>) returns (load: bool)
      modifies this
      ensures init.Ok? ==> signedIn == init.value && authError == None && load == init.value
      ensures init.Ok? ==> State() == if init.value then Start(old(State())) else old(State())
      ensures init.Err? ==> !load && State() == old(State()) && signedIn == old(signedIn)
      ensures init.Err? ==>
                authError == Some(if init.message == "" then "Failed to initialize Google API" else init.message)
    {
      match init {
        case Ok(b) =>
          signedIn := b;
          load := b;
          if b {
            StartAutoRefresh();
          }
          authError := None;
        case Err(m) =>
          load := false;
          authError := Some(if m == "" then "Failed to initialize Google API" else m);
      }
    }
  }
}
