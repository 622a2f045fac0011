/** The loop of examples/c++/rgbringcoder.cxx: one lit LED that runs round the ring, and a
    report for each change of the button and of the encoder. */
module RingCoder {
  /** One reading of the device. */
  datatype Sample = Sample(button: bool, position: int)

  datatype Change<T> = Change(before: T, after: T)

  // ---------- The ring ----------

  /** `spin <<= 1` on a `uint16_t`. */
  function Shift(spin: nat): nat {
    2 * spin % 65536
  }

  /** `spin` at the top of turn `k`. */
  function Spin(k: nat): nat {
    if k == 0 then 1 else Shift(RingValue(k - 1))
  }

  /** The value handed to `setRingLEDS` in turn `k`: `spin`, or 1 when all bits are gone. */
  function RingValue(k: nat): nat {
    if k == 0 || Shift(RingValue(k - 1)) == 0 then 1 else Shift(RingValue(k - 1))
  }

  function Pow2(n: nat): nat {
    if n == 0 then 1 else 2 * Pow2(n - 1)
  }

  lemma LastBit()
    ensures Pow2(15) == 32768
  {
    assert Pow2(3) == 8;
    assert Pow2(6) == 64;
    assert Pow2(9) == 512;
    assert Pow2(12) == 4096;
  }

  lemma {:induction false} PowGrows(n: nat, m: nat)
    requires n < m
    ensures 2 * Pow2(n) <= Pow2(m) && Pow2(n) >= 1
    decreases m
  {
    if n + 1 < m {
      PowGrows(n, m - 1);
    } else if n > 0 {
      PowGrows(n - 1, m - 1);
    }
  }

  lemma ShiftOneHot(n: nat)
    requires n <= 15
    ensures Shift(Pow2(n)) == if n == 15 then 0 else Pow2(n + 1)
    ensures Pow2(n) >= 1
  {
    LastBit();
    if n < 15 {
      PowGrows(n, 15);
      assert Pow2(n + 1) == 2 * Pow2(n);
    }
  }

  /** One LED is lit in every turn, LED k mod 16 in turn k, and the ring is never blank: the bit
      shifted out at the top comes back at the bottom. */
  lemma {:induction false} OneLedRunsRound(k: nat)
    ensures RingValue(k) == Pow2(k % 16) && RingValue(k) != 0
    decreases k
  {
    hide Pow2, Shift;
    if k == 0 {
      ShiftOneHot(0);
      FirstBit();
    } else {
      OneLedRunsRound(k - 1);
      var n := (k - 1) % 16;
      ShiftOneHot(n);
      FirstBit();
      if n < 15 {
        ShiftOneHot(n + 1);
        assert k % 16 == n + 1;
      } else {
        assert k % 16 == 0;
      }
    }
  }

  lemma FirstBit()
    ensures Pow2(0) == 1
  {
  }

  // ---------- Change reports ----------

  /** The reports for the values `xs`, `last` being the value before them. */
  function Reports<T(==)>(last: T, xs: seq<T>): seq<Change<T>> {
    if xs == [] then []
    else (if xs[0] != last then [Change(last, xs[0])] else []) + Reports(xs[0], xs[1..])
  }

  function Last<T>(first: T, xs: seq<T>): T {
    if xs == [] then first else xs[|xs| - 1]
  }

  /** The value a reader of the reports ends up with. */
  function Replay<T>(first: T, log: seq<Change<T>>): T {
    if log == [] then first else log[|log| - 1].after
  }

  /** The reports chain: the first starts from the initial value, each later one from where the
      one before it ended. */
  ghost predicate Chained<T>(first: T, log: seq<Change<T>>)
    decreases |log|
  {
    log == [] || (log[0].before == first && Chained(log[0].after, log[1..]))
  }

  /** For every sequence of samples the reports chain, none of them is empty, and replaying them
      gives the last sample. */
  lemma {:induction false} ReportsReplay<T>(last: T, xs: seq<T>)
    ensures Chained(last, Reports(last, xs))
    ensures forall c :: c in Reports(last, xs) ==> c.before != c.after
    ensures Replay(last, Reports(last, xs)) == Last(last, xs)
    decreases |xs|
  {
    if xs != [] {
      ReportsReplay(xs[0], xs[1..]);
      var rest := Reports(xs[0], xs[1..]);
      if xs[0] != last {
        var log := [Change(last, xs[0])] + rest;
        assert Reports(last, xs) == log && log[1..] == rest;
      } else {
        assert Reports(last, xs) == rest;
      }
    }
  }

  /** Reports made so far stay in front of those still to come. */
  lemma ReportsCons<T>(last: T, x: T, xs: seq<T>, log: seq<Change<T>>)
    ensures x != last ==>
              (log + [Change(last, x)]) + Reports(x, xs) == log + Reports(last, [x] + xs)
    ensures x == last ==> log + Reports(x, xs) == log + Reports(last, [x] + xs)
  {
    assert ([x] + xs)[1..] == xs;
    if x != last {
      assert (log + [Change(last, x)]) + Reports(x, xs) == log + ([Change(last, x)] + Reports(x, xs));
    } else {
      assert Reports(last, [x] + xs) == [] + Reports(x, xs);
    }
  }

  lemma RingIs(k: nat)
    ensures RingValue(k) == if Spin(k) == 0 then 1 else Spin(k)
  {
  }

  lemma NoReports<T>(last: T)
    ensures Reports(last, []) == []
  {
  }

  /** The loop of `main`, for as many turns as there are samples. */
  method Run(samples: seq<Sample>)
    returns (ring: seq<nat>, buttons: seq<Change<bool>>, positions: seq<Change<int>>)
    ensures ring == seq(|samples|, k requires 0 <= k => RingValue(k))
    ensures buttons == Reports(false, Buttons(samples))
    ensures positions == Reports(0, Positions(samples))
    ensures samples != [] ==>
              var last := samples[|samples| - 1];
              Replay(false, buttons) == last.button && Replay(0, positions) == last.position
  {
    ReportsReplay(false, Buttons(samples));
    ReportsReplay(0, Positions(samples));
    hide Reports, RingValue, Shift;
    var spin, oldState, oldPos := 1, false, 0;
    ring, buttons, positions := [], [], [];
    ghost var bs, ps := Buttons(samples), Positions(samples);
    assert bs[0..] == bs && ps[0..] == ps;
    var k := 0;
    while k < |samples|
      invariant 0 <= k <= |samples|
      invariant spin == Spin(k)
      invariant ring == seq(k, j requires 0 <= j => RingValue(j))
      invariant buttons + Reports(oldState, bs[k..]) == Reports(false, Buttons(samples))
      invariant positions + Reports(oldPos, ps[k..]) == Reports(0, Positions(samples))
    {
      if spin == 0 {
        spin := 1;
      }
      RingIs(k);
      ring := ring + [spin];
      spin := Shift(spin);
      var bstate := samples[k].button;
      assert bs[k..] == [bstate] + bs[k + 1..];
      ReportsCons(oldState, bstate, bs[k + 1..], buttons);
      if bstate != oldState {
        buttons := buttons + [Change(oldState, bstate)];
        oldState := bstate;
      }
      var epos := samples[k].position;
      assert ps[k..] == [epos] + ps[k + 1..];
      ReportsCons(oldPos, epos, ps[k + 1..], positions);
      if epos != oldPos {
        positions := positions + [Change(oldPos, epos)];
        oldPos := epos;
      }
      k := k + 1;
    }
    assert bs[k..] == [] && ps[k..] == [];
    NoReports(oldState);
    NoReports(oldPos);
  }

  function Buttons(samples: seq<Sample>): seq<bool> {
    seq(|samples|, i requires 0 <= i < |samples| => samples[i].button)
  }

  function Positions(samples: seq<Sample>): seq<int> {
    seq(|samples|, i requires 0 <= i < |samples| => samples[i].position)
  }
}
