/**
 Passive throughput of one node: differences of its byte counters, taken over windows that
 grow until they hold enough traffic to be read.
 */
module Throughput {
  import opened Wrappers

  const THROUGHPUT_MIN_BYTES := 1024
  const U64_MAX := 0xFFFF_FFFF_FFFF_FFFF

  /** The counters of a node at one moment, in nanoseconds of a clock that does not go back. */
  datatype Reading = Reading(at: nat, sent: nat, received: nat)
  {
    function Total(): nat { sent + received }
  }

  /** A window that was read: what passed in it, and how long it was. */
  datatype Window = Window(bytes: nat, elapsed: nat)

  function Gain(now: nat, before: nat): nat { if before <= now then now - before else 0 }

  /** Bytes between two readings, saturating like the counters. */
  function Passed(from: Reading, to: Reading): nat {
    Min(Gain(to.sent, from.sent) + Gain(to.received, from.received), U64_MAX)
  }

  predicate Readable(from: Reading, to: Reading) {
    Passed(from, to) >= THROUGHPUT_MIN_BYTES && Gain(to.at, from.at) > 0
  }

  /** Megabits per second over a window. */
  function Mbps(w: Window): real
    requires w.elapsed > 0
  {
    w.bytes as real * 8.0 / 1_000_000.0 / (w.elapsed as real / 1_000_000_000.0)
  }

  function Sampled(base: Option<Reading>, now: Reading): (r: (Option<Reading>, Option<Window>))
    ensures r.1.Some? ==> r.1.value.bytes >= THROUGHPUT_MIN_BYTES && r.1.value.elapsed > 0
  {
    if base.None? then (Some(now), None)
    else if Readable(base.value, now) then
      (Some(now), Some(Window(Passed(base.value, now), Gain(now.at, base.value.at))))
    else (base, None)
  }

  class ThroughputTracker {
    var base: Option<Reading>

    constructor ()
      ensures base == None
    {
      base := None;
    }

    /** The first sample is the baseline; a later one closes the window if it can be read. */
    method Sample(at: nat, sent: nat, received: nat) returns (mbps: Option<real>)
      modifies this
      ensures var (next, w) := Sampled(old(base), Reading(at, sent, received));
              base == next && mbps == if w.Some? then Some(Mbps(w.value)) else None
    {
      mbps := None;
      if base.None? {
        base := Some(Reading(at, sent, received));
      } else {
        var elapsed := Gain(at, base.value.at);
        var diff := Min(Gain(sent, base.value.sent) + Gain(received, base.value.received), U64_MAX);
        if diff >= THROUGHPUT_MIN_BYTES && elapsed > 0 {
          base := Some(Reading(at, sent, received));
          mbps := Some(Mbps(Window(diff, elapsed)));
        }
      }
    }
  }

  /** The baseline and the windows after a number of samples. */
  function Track(samples: seq<Reading>): (Option<Reading>, seq<Window>) {
    if samples == [] then (None, [])
    else
      var (base, windows) := Track(samples[..|samples| - 1]);
      var (next, w) := Sampled(base, samples[|samples| - 1]);
      (next, windows + if w.Some? then [w.value] else [])
  }

  function Bytes(windows: seq<Window>): nat {
    if windows == [] then 0 else Bytes(windows[..|windows| - 1]) + windows[|windows| - 1].bytes
  }

  function Time(windows: seq<Window>): nat {
    if windows == [] then 0 else Time(windows[..|windows| - 1]) + windows[|windows| - 1].elapsed
  }

  predicate NotBefore(a: Reading, b: Reading) { a.at <= b.at && a.sent <= b.sent && a.received <= b.received }

  /** Counters and clock never go back, and the counters have not overflowed. */
  predicate Growing(samples: seq<Reading>) {
    && (forall i, j :: 0 <= i <= j < |samples| ==> NotBefore(samples[i], samples[j]))
    && forall i :: 0 <= i < |samples| ==> samples[i].Total() <= U64_MAX
  }

  lemma BytesOfMore(windows: seq<Window>, w: Window)
    ensures Bytes(windows + [w]) == Bytes(windows) + w.bytes && Time(windows + [w]) == Time(windows) + w.elapsed
  {
    assert (windows + [w])[..|windows|] == windows;
  }

  /** What the baseline stands for after some samples. */
  predicate Booked(base: Reading, windows: seq<Window>, first: Reading, last: Reading) {
    && NotBefore(first, base) && NotBefore(base, last)
    && Bytes(windows) == base.Total() - first.Total() && Time(windows) == base.at - first.at
    && !Readable(base, last)
  }

  lemma BookedNext(base: Reading, windows: seq<Window>, first: Reading, last: Reading, now: Reading)
    requires Booked(base, windows, first, last) && NotBefore(last, now) && now.Total() <= U64_MAX
    ensures var (next, w) := Sampled(Some(base), now);
            next.Some? && Booked(next.value, windows + (if w.Some? then [w.value] else []), first, now)
  {
    if Readable(base, now) {
      BytesOfMore(windows, Window(Passed(base, now), Gain(now.at, base.at)));
    } else {
      assert windows + [] == windows;
    }
  }

  lemma {:induction false} TrackIsBooked(samples: seq<Reading>)
    requires samples != [] && Growing(samples)
    ensures Track(samples).0.Some?
    ensures Booked(Track(samples).0.value, Track(samples).1, samples[0], samples[|samples| - 1])
  {
    var n := |samples| - 1;
    var init := samples[..n];
    if n == 0 {
      assert Track(init) == (None, []);
    } else {
      TrackIsBooked(init);
      BookedNext(Track(init).0.value, Track(init).1, samples[0], samples[n - 1], samples[n]);
    }
  }

  /**
   Slow traffic is not lost between windows: the windows read so far and what waits behind the
   baseline make up every byte since the first sample, the windows follow each other without a
   gap in time, and what waits is too little to read or has only just arrived.
   */
  lemma NoTrafficIsLost(samples: seq<Reading>)
    requires samples != [] && Growing(samples)
    ensures Track(samples).0.Some?
    ensures var base, windows, last := Track(samples).0.value, Track(samples).1, samples[|samples| - 1];
            && Bytes(windows) + (last.Total() - base.Total()) == last.Total() - samples[0].Total()
            && Time(windows) == base.at - samples[0].at
            && (last.Total() - base.Total() < THROUGHPUT_MIN_BYTES || last.at == base.at)
  {
    TrackIsBooked(samples);
  }

  /** The rate over a window is its bits by its time: megabits times nanoseconds are eight thousand to a byte. */
  lemma RateIsExact(w: Window)
    requires w.elapsed > 0
    ensures Mbps(w) * w.elapsed as real == w.bytes as real * 8000.0
  {
    var seconds := w.elapsed as real / 1_000_000_000.0;
    var bits := w.bytes as real * 8.0 / 1_000_000.0;
    assert Mbps(w) == bits / seconds;
    assert bits / seconds * seconds == bits;
  }
}
