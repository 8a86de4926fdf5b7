/**
 What the codec's polling reader and writer share (transport/connection.go):
 socket outcomes, and the deadline each poll arms. Times are in nanoseconds
 and pass only inside the socket calls.
 */
module CodecPolling {
  const MILLISECOND := 1_000_000

  datatype Error = NoError | TimedOut | Failed(code: int)

  /** How a polling call ends; `shut` tells whether a latch or a shutdown was seen. Pending: still blocked. */
  datatype Result = Done | Surfaced(error: Error, shut: bool) | Pending

  /** The time a poll may take: the poll interval, cut to the stall deadline but never below a millisecond. */
  function Window(interval: int, watching: bool, stall: int, last: int, now: int): int {
    var remaining := stall - (now - last);
    if watching && stall > 0 && remaining < interval
    then if remaining > MILLISECOND then remaining else MILLISECOND
    else interval
  }

  /** How long a socket call blocks: up to the deadline this turn armed if it is punctual, else as it likes. */
  function Span(interval: int, punctual: bool, elapsed: nat, watching: bool, stall: int, last: int, now: int): (d: nat) {
    if punctual && interval > 0 then Window(interval, watching, stall, last, now) else elapsed
  }

  predicate Stalled(watching: bool, stall: int, last: int, now: int) {
    watching && stall > 0 && now - last >= stall
  }

  /** A poll is never cut below a millisecond, and never made longer. */
  lemma WindowFloor(interval: int, watching: bool, stall: int, last: int, now: int)
    ensures var w := Window(interval, watching, stall, last, now);
            && (w >= interval || w >= 1_000_000)
            && (w <= interval || w == 1_000_000)
            && (!watching || stall <= 0 ==> w == interval)
  {
  }

  /** One poll that times out at its deadline either finds the stall in time or leaves the deadline still ahead. */
  lemma OneWindow(interval: int, stall: int, last: int, now: int)
    requires interval >= 1 && stall > 0
    ensures var next := now + Window(interval, true, stall, last, now);
            && next > now
            && next <= (if last + stall > now then last + stall else now) + MILLISECOND
            && (Stalled(true, stall, last, next) || now < next < last + stall)
  {
  }
}
