/** The checkout redirector of `src/hooks/use-stripe-checkout.ts`: a two-state
    machine (`idle`, `redirecting`) that asks the API for a checkout URL and sends
    the browser there, or to a statically configured fallback URL when the call
    fails. Browser navigations are collected in the effect a call returns. */
module Checkout {
  import opened Wrappers
  import opened Api

  datatype Status = Idle | Redirecting

  datatype CheckoutState = CheckoutState(status: Status, error: Option<string>)

  /** The hook's state on mount. */
  const Initial: CheckoutState := CheckoutState(Idle, None)

  const DefaultFallback: string := "https://buy.stripe.com/test_6oUdRb0Kp3kj9Zxf5KafS00"
  const FailureFallback: string := "Não foi possível iniciar o checkout agora."

  /** `VITE_STRIPE_CHECKOUT_URL ?? <test link>`: an override, even an empty one, wins. */
  function FallbackUrl(envOverride: Option<string>): (url: string)
    ensures envOverride.None? ==> url == DefaultFallback
    ensures envOverride.Some? ==> url == envOverride.value
  {
    envOverride.GetOr(DefaultFallback)
  }

  /** `isRedirecting`. */
  predicate IsRedirecting(s: CheckoutState) {
    s.status == Redirecting
  }

  /** An error is shown only once the redirector is back to `idle`. */
  predicate Valid(s: CheckoutState) {
    s.error.Some? ==> !IsRedirecting(s)
  }

  /** What one invocation does: the state it leaves, whether it asked the API for a
      session, and the URLs it sent the browser to, in order. */
  datatype Effect = Effect(state: CheckoutState, requested: bool, navigations: seq<string>)

  /** The state while the checkout-session request is pending. */
  function Begin(s: CheckoutState): (r: CheckoutState)
    ensures IsRedirecting(r) && r.error.None?
  {
    CheckoutState(Redirecting, None)
  }

  /** `redirectToCheckout()` invoked while the hook is in `s`, with the configured
      `fallback` and the settled outcome of `createCheckoutSession` (its `checkout_url`). */
  function Invoke(s: CheckoutState, fallback: string, outcome: Result<string, Thrown>): (e: Effect)
    ensures IsRedirecting(s) ==> e == Effect(s, false, [])
    ensures !IsRedirecting(s) ==> e.requested
    ensures !IsRedirecting(s) && outcome.Success? ==>
      e == Effect(CheckoutState(Redirecting, None), true, [outcome.value])
    ensures !IsRedirecting(s) && outcome.Failure? && fallback != "" ==>
      e == Effect(CheckoutState(Redirecting, None), true, [fallback])
    ensures !IsRedirecting(s) && outcome.Failure? && fallback == "" ==>
      && e.navigations == []
      && e.state == CheckoutState(Idle, Some(ErrorText(outcome.error, FailureFallback)))
    ensures |e.navigations| <= 1
    ensures Valid(s) ==> Valid(e.state)
    ensures !IsRedirecting(s) ==> (IsRedirecting(e.state) <==> |e.navigations| == 1)
  {
    if s.status == Redirecting then Effect(s, false, [])
    else
      var pending := Begin(s);
      match outcome
      case Success(url) => Effect(pending, true, [url])
      case Failure(err) =>
        if fallback != "" then Effect(pending, true, [fallback])
        else Effect(CheckoutState(Idle, Some(ErrorText(err, FailureFallback))), true, [])
  }

  /** A second invocation made while the first one's request is still pending is a no-op:
      double clicks cause one request. */
  lemma PendingInvocationIsNoOp(s: CheckoutState, fallback: string, outcome: Result<string, Thrown>)
    ensures Invoke(Begin(s), fallback, outcome) == Effect(Begin(s), false, [])
  {
  }

  /** Invocations one after another, each one seeing the state the previous one left. */
  function Run(s: CheckoutState, fallback: string, outcomes: seq<Result<string, Thrown>>): (e: Effect)
    decreases |outcomes|
  {
    if |outcomes| == 0 then Effect(s, false, [])
    else
      var first := Invoke(s, fallback, outcomes[0]);
      var rest := Run(first.state, fallback, outcomes[1..]);
      Effect(rest.state, first.requested || rest.requested, first.navigations + rest.navigations)
  }

  /** However often the redirector is invoked, the browser is sent away at most once, and
      once it has been, the redirector stays `redirecting`. */
  lemma {:induction false} AtMostOneNavigation(s: CheckoutState, fallback: string, outcomes: seq<Result<string, Thrown>>)
    ensures |Run(s, fallback, outcomes).navigations| <= 1
    ensures IsRedirecting(s) ==> Run(s, fallback, outcomes) == Effect(s, false, [])
    ensures |Run(s, fallback, outcomes).navigations| == 1 ==> IsRedirecting(Run(s, fallback, outcomes).state)
    decreases |outcomes|
  {
    if |outcomes| > 0 {
      var first := Invoke(s, fallback, outcomes[0]);
      AtMostOneNavigation(first.state, fallback, outcomes[1..]);
    }
  }

  /** The failure message is shown only when the environment configures an empty fallback:
      with no override the built-in link is used, and every other failure leaves for the
      configured link. */
  lemma ErrorNeedsEmptyOverride(envOverride: Option<string>, s: CheckoutState, outcome: Result<string, Thrown>)
    requires Valid(s)
    requires Invoke(s, FallbackUrl(envOverride), outcome).state.error.Some?
    ensures envOverride == Some("")
    ensures outcome.Failure? && !IsRedirecting(s)
  {
  }
}
