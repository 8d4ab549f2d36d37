/** The wrapped millisecond clock of the timer nodes (src/Utils/Timer.cpp:12-19, 39-51). */
module Clock {

  /** Milliseconds after which a reading starts again at zero. */
  const CYCLE := 1_000_000

  /** `(tv_sec % 1000) * 1000 + tv_usec / 1000`. */
  function Reading(sec: nat, usec: nat): nat {
    (sec % 1000) * 1000 + usec / 1000
  }

  /** A reading is the number of elapsed milliseconds modulo the cycle. */
  lemma ReadingIsWrappedTime(sec: nat, usec: nat)
    requires usec < 1_000_000
    ensures Reading(sec, usec) == (sec * 1000 + usec / 1000) % CYCLE
    ensures Reading(sec, usec) < CYCLE
  {
    var q, r := sec / 1000, sec % 1000;
    var total := sec * 1000 + usec / 1000;
    assert sec == 1000 * q + r;
    assert total == CYCLE * q + Reading(sec, usec);
    assert usec / 1000 < 1000;
    RemainderIs(total, q, Reading(sec, usec));
  }

  lemma RemainderIs(total: nat, q: nat, r: nat)
    requires total == CYCLE * q + r && r < CYCLE
    ensures total % CYCLE == r && total / CYCLE == q
  {
  }

  /** `expire_time_` of a node made at total time `created`: the sum is not reduced again. */
  function Deadline(created: nat, timeout: nat): nat { created % CYCLE + timeout }

  /** The comparison of `IsExpired` at total time `now`. */
  predicate Expired(now: nat, deadline: nat) { now % CYCLE >= deadline }

  /** How many times the reading has wrapped since a node was made. */
  function Wraps(created: nat, now: nat): int { now / CYCLE - created / CYCLE }

  /** Every wrap puts the expiry off by a whole cycle. */
  lemma ExpiredExactly(created: nat, timeout: nat, now: nat)
    requires created <= now
    ensures Expired(now, Deadline(created, timeout))
       <==> created + timeout + CYCLE * Wraps(created, now) <= now
  {
    assert created == CYCLE * (created / CYCLE) + created % CYCLE;
    assert now == CYCLE * (now / CYCLE) + now % CYCLE;
  }

  /** No wrap makes a timer expire before its full timeout has passed. */
  lemma NeverEarly(created: nat, timeout: nat, now: nat)
    requires created <= now && Expired(now, Deadline(created, timeout))
    ensures created + timeout <= now
  {
    assert created / CYCLE <= now / CYCLE;
    assert created == CYCLE * (created / CYCLE) + created % CYCLE;
    assert now == CYCLE * (now / CYCLE) + now % CYCLE;
  }

  /** In the cycle of its creation a timer is expired exactly from its timeout on. */
  lemma ExactWithinCycle(created: nat, timeout: nat, now: nat)
    requires created / CYCLE == now / CYCLE
    ensures Expired(now, Deadline(created, timeout)) <==> created + timeout <= now
  {
    assert created == CYCLE * (created / CYCLE) + created % CYCLE;
    assert now == CYCLE * (now / CYCLE) + now % CYCLE;
  }

  /** A timer expires at some time, and then already when its timeout is over, exactly when the
      unreduced deadline is still below the cycle. */
  lemma EventuallyExpires(created: nat, timeout: nat)
    ensures (exists now :: created <= now && Expired(now, Deadline(created, timeout)))
       <==> Deadline(created, timeout) < CYCLE
    ensures Expired(created + timeout, Deadline(created, timeout))
       <==> Deadline(created, timeout) < CYCLE
  {
    var due := created + timeout;
    if Deadline(created, timeout) < CYCLE {
      RemainderIs(due, created / CYCLE, Deadline(created, timeout));
      assert Expired(due, Deadline(created, timeout));
    }
  }

  /** It stays expired for good exactly when its deadline is zero: every wrap revives it. */
  lemma StaysExpired(created: nat, timeout: nat)
    ensures (forall now :: created + timeout <= now ==> Expired(now, Deadline(created, timeout)))
       <==> Deadline(created, timeout) == 0
  {
    var due := created + timeout;
    var wrap := CYCLE * (due / CYCLE + 1);
    RemainderIs(wrap, due / CYCLE + 1, 0);
    assert due == CYCLE * (due / CYCLE) + due % CYCLE;
    assert due <= wrap;
    if Deadline(created, timeout) != 0 {
      assert !Expired(wrap, Deadline(created, timeout));
    }
  }
}
