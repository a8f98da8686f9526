/** block_until_element_is_visible (nessus.py:40-59): a bounded retry loop.
    Each attempt re-acquires the locator and waits one second for the element;
    the browser is not modelled, only the outcome of each attempt, given as a
    sequence (true: the element became visible during that attempt). Attempts
    past the end of the sequence time out. */
module Waiter {
  import opened Common

  /** How a wait ends and how many attempts it made: Visible returns,
      NotVisible raises ElementNotVisibleError. */
  datatype Wait = Visible(attempts: nat) | NotVisible(attempts: nat)

  /** The default `timeout` of block_until_element_is_visible: five attempts. */
  const DefaultRetries := 5

  /** Whether the attempt numbered k (from 0) sees the element. */
  predicate SeenAt(outcomes: seq<bool>, k: nat)
  {
    k < |outcomes| && outcomes[k]
  }

  /** The first of the attempts 0 .. n-1 that sees the element. */
  function FirstSeen(outcomes: seq<bool>, n: nat): (r: Option<nat>)
    ensures r.None? <==> forall k :: 0 <= k < n ==> !SeenAt(outcomes, k)
    ensures r.Some? ==> r.value < n && SeenAt(outcomes, r.value)
    ensures r.Some? ==> forall k :: 0 <= k < r.value ==> !SeenAt(outcomes, k)
  {
    if n == 0 then None
    else match FirstSeen(outcomes, n - 1)
      case Some(k) => Some(k)
      case None => if SeenAt(outcomes, n - 1) then Some(n - 1) else None
  }

  /** What a wait with the given `timeout` does: it returns at the first
      attempt that sees the element, and raises after `timeout` attempts that
      all time out — at once, with no attempt, when `timeout <= 0`. */
  function WaitVisible(outcomes: seq<bool>, timeout: int): (r: Wait)
    ensures r.attempts <= if timeout > 0 then timeout else 0
    ensures r.Visible? <==> exists k :: 0 <= k < timeout && SeenAt(outcomes, k)
    ensures r.Visible? ==> r.attempts >= 1 && SeenAt(outcomes, r.attempts - 1)
    ensures r.Visible? ==> forall k :: 0 <= k < r.attempts - 1 ==> !SeenAt(outcomes, k)
    ensures r.NotVisible? ==> r.attempts == if timeout > 0 then timeout else 0
  {
    if timeout <= 0 then NotVisible(0)
    else match FirstSeen(outcomes, timeout)
      case Some(k) => Visible(k + 1)
      case None => NotVisible(timeout)
  }

  /** The retry loop as the source writes it: `retries` counts down from
      `timeout`, one per timed-out attempt. */
  method BlockUntilElementIsVisible(outcomes: seq<bool>, timeout: int) returns (r: Wait)
    ensures r == WaitVisible(outcomes, timeout)
  {
    var retries := timeout;
    while retries > 0
      invariant retries <= timeout
      invariant retries > 0 ==> forall k :: 0 <= k < timeout - retries ==> !SeenAt(outcomes, k)
      invariant retries <= 0 ==> retries == timeout || (retries == 0 && forall k :: 0 <= k < timeout ==> !SeenAt(outcomes, k))
    {
      var attempt := timeout - retries;
      if SeenAt(outcomes, attempt) {
        return Visible(attempt + 1);
      }
      retries := retries - 1;
    }
    r := NotVisible(timeout - retries);
  }

  /** An element that never shows up costs exactly `timeout` attempts. */
  lemma NeverVisibleExhaustsRetries(timeout: int)
    ensures WaitVisible([], timeout) == NotVisible(if timeout > 0 then timeout else 0)
  {
  }

  /** An element visible at once is found by the first attempt. */
  lemma VisibleAtOnce(outcomes: seq<bool>, timeout: int)
    requires |outcomes| > 0 && outcomes[0] && timeout > 0
    ensures WaitVisible(outcomes, timeout) == Visible(1)
  {
    assert SeenAt(outcomes, 0);
  }

  /** Granting more attempts never turns a found element into a missed one,
      and does not change which attempt finds it. */
  lemma {:induction false} MoreRetriesFindNoLater(outcomes: seq<bool>, timeout: int, more: int)
    requires timeout <= more
    ensures WaitVisible(outcomes, timeout).Visible? ==> WaitVisible(outcomes, more) == WaitVisible(outcomes, timeout)
  {
    var w := WaitVisible(outcomes, timeout);
    if w.Visible? {
      var k := w.attempts - 1;
      var v := WaitVisible(outcomes, more);
      assert 0 <= k < more && SeenAt(outcomes, k);
      assert v.Visible?;
    }
  }
}
