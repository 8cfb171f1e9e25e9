/** The retry loop of every short API call. */
module Client {

  const MAX_CALLS: nat := 5

  function Pow2(n: nat): (p: nat)
    ensures p >= 1
  {
    if n == 0 then 1 else 2 * Pow2(n - 1)
  }

  /** The outcome of each call, and whether the context ends the wait after it. */
  datatype Replies = Replies(reply: nat -> bool, cancelled: nat -> bool)

  /** Every call but the last failed and its wait was not cut short; the last one succeeded, or was
      the fifth, or was cancelled. */
  predicate IsPostRun(r: Replies, ok: bool, calls: nat) {
    && 1 <= calls <= MAX_CALLS
    && (forall k | 0 <= k < calls - 1 :: !r.reply(k) && !r.cancelled(k))
    && (ok <==> r.reply(calls - 1))
    && (!ok ==> calls == MAX_CALLS || r.cancelled(calls - 1))
  }

  /** The calls made, from call k on. */
  function CallsFrom(r: Replies, k: nat): (n: nat)
    requires k < MAX_CALLS
    ensures k < n <= MAX_CALLS
    ensures forall i | k <= i < n - 1 :: !r.reply(i) && !r.cancelled(i)
    ensures r.reply(n - 1) || n == MAX_CALLS || r.cancelled(n - 1)
    decreases MAX_CALLS - k
  {
    if r.reply(k) || k + 1 == MAX_CALLS || r.cancelled(k) then k + 1 else CallsFrom(r, k + 1)
  }

  function Calls(r: Replies): (n: nat)
    ensures n >= 1 && IsPostRun(r, r.reply(n - 1), n)
  {
    CallsFrom(r, 0)
  }

  predicate Succeeds(r: Replies) {
    r.reply(Calls(r) - 1)
  }

  /** post. The waits completed double each time. */
  method Post(r: Replies) returns (ok: bool, calls: nat, waited: nat)
    ensures IsPostRun(r, ok, calls) && ok == Succeeds(r) && calls == Calls(r)
    ensures waited == Pow2(calls) - 2 && waited <= 30
  {
    var attempt: nat, backoff: nat := 0, 2;
    waited := 0;
    while true
      invariant attempt < MAX_CALLS && backoff == Pow2(attempt + 1) && waited == Pow2(attempt + 1) - 2
      invariant forall k | 0 <= k < attempt :: !r.reply(k) && !r.cancelled(k)
      decreases MAX_CALLS - attempt
    {
      if r.reply(attempt) {
        AtMostThirty(attempt + 1);
        RunIsUnique(r, true, attempt + 1, Succeeds(r), Calls(r));
        return true, attempt + 1, waited;
      }
      attempt := attempt + 1;
      if attempt >= MAX_CALLS || r.cancelled(attempt - 1) {
        AtMostThirty(attempt);
        RunIsUnique(r, false, attempt, Succeeds(r), Calls(r));
        return false, attempt, waited;
      }
      waited, backoff := waited + backoff, backoff * 2;
    }
  }

  lemma AtMostThirty(calls: nat)
    requires calls <= MAX_CALLS
    ensures Pow2(calls) <= 32
  {
    assert Pow2(5) == 32;
    PowMonotone(calls, 5);
  }

  lemma {:induction false} PowMonotone(m: nat, n: nat)
    requires m <= n
    ensures Pow2(m) <= Pow2(n)
    decreases n - m
  {
    if m < n {
      PowMonotone(m + 1, n);
    }
  }

  /** Uncancelled, the call succeeds exactly when one of its first five attempts would. */
  lemma SucceedsIffOneOfFive(r: Replies)
    requires forall k :: !r.cancelled(k)
    ensures Succeeds(r) <==> exists k :: 0 <= k < MAX_CALLS && r.reply(k)
  {
    if !Succeeds(r) {
      assert forall k | 0 <= k < MAX_CALLS - 1 :: !r.reply(k);
    }
  }

  /** The run is determined: one success or failure and one number of calls for all replies. */
  lemma RunIsUnique(r: Replies, ok1: bool, calls1: nat, ok2: bool, calls2: nat)
    requires IsPostRun(r, ok1, calls1) && IsPostRun(r, ok2, calls2)
    ensures ok1 == ok2 && calls1 == calls2
  {
    var k1: nat, k2: nat := calls1 - 1, calls2 - 1;
    assert k1 < k2 ==> !r.reply(k1) && !r.cancelled(k1);
    assert k2 < k1 ==> !r.reply(k2) && !r.cancelled(k2);
  }

  /** A call that is never answered is tried five times, over 2 + 4 + 8 + 16 seconds. */
  lemma GivesUpAfterFive(r: Replies)
    requires forall k :: !r.reply(k) && !r.cancelled(k)
    ensures Calls(r) == 5 && !Succeeds(r) && Pow2(Calls(r)) - 2 == 2 + 4 + 8 + 16
  {
    RunIsUnique(r, false, 5, Succeeds(r), Calls(r));
    assert Pow2(5) == 32;
  }
}
