/** The bounded retry around every repository write. */
module Retry {
  import opened Schema
  import opened Store

  const BUSY_MAX_ATTEMPTS: nat := 5

  const U32_MAX: nat := U32_SPACE - 1

  /** What an attempt meets: a free database, one that is busy or locked, or another failure. */
  datatype Encounter = Free | Busy | Broken

  datatype Outcome = Settled(reply: Reply) | StillBusy | Failed

  /** One attempt: a statement that fails changes nothing. */
  function Attempt(t: Tables, op: Op, met: Encounter): (Tables, Outcome) {
    match met
    case Free => var (after, reply) := Execute(t, op); (after, Settled(reply))
    case Busy => (t, StillBusy)
    case Broken => (t, Failed)
  }

  function SaturatingIncrement(x: nat): nat {
    if x < U32_MAX then x + 1 else U32_MAX
  }

  /**
   The write takes effect at most once, in the last attempt; every earlier attempt was turned away; and the
   caller hears that the database is busy only after the full number of attempts.
   */
  method WithBusyRetry(t: Tables, op: Op, met: nat -> Encounter)
    returns (after: Tables, outcome: Outcome, attempts: nat)
    ensures 1 <= attempts <= 5
    ensures forall k: nat | k < attempts - 1 :: met(k) == Busy
    ensures outcome.Settled? <==> met(attempts - 1) == Free
    ensures outcome.Settled? ==> (after, outcome.reply) == Execute(t, op)
    ensures !outcome.Settled? ==> after == t
    ensures outcome == Failed <==> met(attempts - 1) == Broken
    ensures outcome == StillBusy <==> met(0) == met(1) == met(2) == met(3) == met(4) == Busy
    ensures outcome == StillBusy ==> attempts == 5
  {
    var attempt := 0;
    after := t;
    while true
      invariant attempt < BUSY_MAX_ATTEMPTS
      invariant after == t
      invariant forall k: nat | k < attempt :: met(k) == Busy
      decreases BUSY_MAX_ATTEMPTS - attempt
    {
      var tried := Attempt(after, op, met(attempt));
      after, outcome := tried.0, tried.1;
      if !(outcome == StillBusy && SaturatingIncrement(attempt) < BUSY_MAX_ATTEMPTS) {
        attempts := attempt + 1;
        return;
      }
      attempt := SaturatingIncrement(attempt);
    }
  }
}
