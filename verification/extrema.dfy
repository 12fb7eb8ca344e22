/** The two running-extremum scans of the dashboard, over a sequence of
    readings in scan order. A reading is `None` when the object it comes
    from is skipped, and `Some(Extremum(name, value))` otherwise.

    Both scans start from the seed `("", 0.0)`:
    - the maximum scan replaces the current value when it is strictly
      below the new reading;
    - the minimum scan replaces it when it is strictly above the new
      reading OR when it equals `0.0`, so `0.0` doubles as "nothing found
      yet". */
module Extrema {
  import opened Wrappers

  datatype Extremum = Extremum(name: string, value: real)

  type Readings = seq<Option<Extremum>>

  const Seed := Extremum("", 0.0)

  // ---------------------------------------------------------------------
  // The scans

  function MaxStep(acc: Extremum, reading: Option<Extremum>): Extremum {
    match reading
    case None => acc
    case Some(e) => if acc.value < e.value then e else acc
  }

  /** The maximum scan from `acc`, processing `rs` left to right. */
  function MaxFrom(acc: Extremum, rs: Readings): Extremum {
    if |rs| == 0 then acc
    else MaxStep(MaxFrom(acc, rs[..|rs| - 1]), rs[|rs| - 1])
  }

  function MinStep(acc: Extremum, reading: Option<Extremum>): Extremum {
    match reading
    case None => acc
    case Some(e) => if acc.value > e.value || acc.value == 0.0 then e else acc
  }

  /** The minimum scan from `acc`, processing `rs` left to right. */
  function MinFrom(acc: Extremum, rs: Readings): Extremum {
    if |rs| == 0 then acc
    else MinStep(MinFrom(acc, rs[..|rs| - 1]), rs[|rs| - 1])
  }

  // ---------------------------------------------------------------------
  // Reference definitions

  predicate IsReading(rs: Readings, k: int) {
    0 <= k < |rs| && rs[k].Some?
  }

  ghost predicate HasReading(rs: Readings) {
    exists k :: IsReading(rs, k)
  }

  /** Some reading beats the seed of the maximum scan. */
  ghost predicate HasPositive(rs: Readings) {
    exists k :: IsReading(rs, k) && rs[k].value.value > 0.0
  }

  ghost predicate AllPositive(rs: Readings) {
    forall k :: IsReading(rs, k) ==> rs[k].value.value > 0.0
  }

  ghost predicate AllNonNegative(rs: Readings) {
    forall k :: IsReading(rs, k) ==> rs[k].value.value >= 0.0
  }

  /** Reading `k` is a largest reading and no earlier reading equals it. */
  ghost predicate IsFirstMaximum(rs: Readings, k: int) {
    && IsReading(rs, k)
    && (forall j :: IsReading(rs, j) ==> rs[j].value.value <= rs[k].value.value)
    && (forall j :: 0 <= j < k && IsReading(rs, j) ==> rs[j].value.value < rs[k].value.value)
  }

  /** Reading `k` is a smallest reading and no earlier reading equals it. */
  ghost predicate IsFirstMinimum(rs: Readings, k: int) {
    && IsReading(rs, k)
    && (forall j :: IsReading(rs, j) ==> rs[k].value.value <= rs[j].value.value)
    && (forall j :: 0 <= j < k && IsReading(rs, j) ==> rs[k].value.value < rs[j].value.value)
  }

  /** Reading `k` is the last reading of the scan. */
  predicate IsLastReading(rs: Readings, k: int) {
    IsReading(rs, k) && forall j :: k < j < |rs| ==> rs[j].None?
  }

  // ---------------------------------------------------------------------
  // Lemmas

  /** The scans compose: scanning `a + b` is scanning `b` from where `a`
      left off. */
  lemma {:induction false} MaxFromAppend(acc: Extremum, a: Readings, b: Readings)
    ensures MaxFrom(acc, a + b) == MaxFrom(MaxFrom(acc, a), b)
  {
    if |b| > 0 {
      assert (a + b)[..|a + b| - 1] == a + b[..|b| - 1];
      MaxFromAppend(acc, a, b[..|b| - 1]);
    } else {
      assert a + b == a;
    }
  }

  lemma {:induction false} MinFromAppend(acc: Extremum, a: Readings, b: Readings)
    ensures MinFrom(acc, a + b) == MinFrom(MinFrom(acc, a), b)
  {
    if |b| > 0 {
      assert (a + b)[..|a + b| - 1] == a + b[..|b| - 1];
      MinFromAppend(acc, a, b[..|b| - 1]);
    } else {
      assert a + b == a;
    }
  }

  /** The readings of a prefix are the readings of the whole before the
      cut. */
  lemma PrefixReadings(rs: Readings, n: int)
    requires 0 <= n <= |rs|
    ensures forall k :: IsReading(rs[..n], k) <==> k < n && IsReading(rs, k)
  {
  }

  /** Skipped objects leave the current extremum alone. */
  lemma {:induction false} MinFromNoReadings(acc: Extremum, rs: Readings)
    requires !HasReading(rs)
    ensures MinFrom(acc, rs) == acc
  {
    if |rs| > 0 {
      var n := |rs| - 1;
      PrefixReadings(rs, n);
      assert !IsReading(rs, n);
      MinFromNoReadings(acc, rs[..n]);
    }
  }

  // One step of the maximum scan, case by case, for `rs` split into its
  // prefix `rs[..n]` and its last reading `rs[n]`.

  lemma MaxStepFirstPositive(rs: Readings)
    requires |rs| > 0 && !HasPositive(rs[..|rs| - 1])
    requires IsReading(rs, |rs| - 1) && rs[|rs| - 1].value.value > 0.0
    ensures IsFirstMaximum(rs, |rs| - 1)
  {
    PrefixReadings(rs, |rs| - 1);
  }

  lemma MaxStepStillNotPositive(rs: Readings)
    requires |rs| > 0 && !HasPositive(rs[..|rs| - 1])
    requires rs[|rs| - 1].Some? ==> rs[|rs| - 1].value.value <= 0.0
    ensures !HasPositive(rs)
  {
    PrefixReadings(rs, |rs| - 1);
  }

  lemma MaxStepReplace(rs: Readings, k: int)
    requires |rs| > 0 && IsFirstMaximum(rs[..|rs| - 1], k)
    requires IsReading(rs, |rs| - 1) && rs[k].value.value < rs[|rs| - 1].value.value
    ensures IsFirstMaximum(rs, |rs| - 1)
  {
    PrefixReadings(rs, |rs| - 1);
  }

  lemma MaxStepKeep(rs: Readings, k: int)
    requires |rs| > 0 && IsFirstMaximum(rs[..|rs| - 1], k)
    requires rs[|rs| - 1].Some? ==> rs[|rs| - 1].value.value <= rs[k].value.value
    ensures IsFirstMaximum(rs, k)
  {
    PrefixReadings(rs, |rs| - 1);
  }

  /** The maximum scan from the seed: if some reading is positive, the
      result is the first largest reading; otherwise it is the seed. */
  lemma {:induction false} MaxScanIsFirstMaximum(rs: Readings)
    ensures !HasPositive(rs) ==> MaxFrom(Seed, rs) == Seed
    ensures HasPositive(rs) ==> exists k :: IsFirstMaximum(rs, k) && MaxFrom(Seed, rs) == rs[k].value
  {
    if |rs| > 0 {
      var n := |rs| - 1;
      var p := rs[..n];
      MaxScanIsFirstMaximum(p);
      var acc := MaxFrom(Seed, p);
      if !HasPositive(p) {
        if rs[n].Some? && 0.0 < rs[n].value.value {
          MaxStepFirstPositive(rs);
        } else {
          MaxStepStillNotPositive(rs);
        }
      } else {
        var k :| IsFirstMaximum(p, k) && acc == p[k].value;
        assert IsReading(rs, k);
        if rs[n].Some? && acc.value < rs[n].value.value {
          MaxStepReplace(rs, k);
        } else {
          MaxStepKeep(rs, k);
        }
      }
    }
  }

  // One step of the minimum scan over positive readings.

  lemma MinStepFirstReading(rs: Readings)
    requires |rs| > 0 && !HasReading(rs[..|rs| - 1])
    requires IsReading(rs, |rs| - 1)
    ensures IsFirstMinimum(rs, |rs| - 1)
  {
    PrefixReadings(rs, |rs| - 1);
  }

  lemma MinStepReplace(rs: Readings, k: int)
    requires |rs| > 0 && IsFirstMinimum(rs[..|rs| - 1], k)
    requires IsReading(rs, |rs| - 1) && rs[k].value.value > rs[|rs| - 1].value.value
    ensures IsFirstMinimum(rs, |rs| - 1)
  {
    PrefixReadings(rs, |rs| - 1);
  }

  lemma MinStepKeep(rs: Readings, k: int)
    requires |rs| > 0 && IsFirstMinimum(rs[..|rs| - 1], k)
    requires rs[|rs| - 1].Some? ==> rs[k].value.value <= rs[|rs| - 1].value.value
    ensures IsFirstMinimum(rs, k)
  {
    PrefixReadings(rs, |rs| - 1);
  }

  /** The minimum scan from the seed, when every reading is positive: the
      result is the first smallest reading, or the seed if there is none. */
  lemma {:induction false} MinScanIsFirstMinimum(rs: Readings)
    requires AllPositive(rs)
    ensures !HasReading(rs) ==> MinFrom(Seed, rs) == Seed
    ensures HasReading(rs) ==> exists k :: IsFirstMinimum(rs, k) && MinFrom(Seed, rs) == rs[k].value
  {
    if !HasReading(rs) {
      MinFromNoReadings(Seed, rs);
    } else {
      var n := |rs| - 1;
      var p := rs[..n];
      PrefixReadings(rs, n);
      MinScanIsFirstMinimum(p);
      var acc := MinFrom(Seed, p);
      if !HasReading(p) {
        MinStepFirstReading(rs);
      } else {
        var k :| IsFirstMinimum(p, k) && acc == p[k].value;
        assert IsReading(rs, k);
        if rs[n].Some? && acc.value > rs[n].value.value {
          MinStepReplace(rs, k);
        } else {
          MinStepKeep(rs, k);
        }
      }
    }
  }

  /** With non-negative readings, the minimum scan never drops below zero. */
  lemma {:induction false} MinFromNonNegative(acc: Extremum, rs: Readings)
    requires acc.value >= 0.0
    requires AllNonNegative(rs)
    ensures MinFrom(acc, rs).value >= 0.0
  {
    if |rs| > 0 {
      var n := |rs| - 1;
      assert AllNonNegative(rs[..n]) by {
        forall k | IsReading(rs[..n], k) ensures rs[..n][k].value.value >= 0.0 {
          assert IsReading(rs, k);
        }
      }
      MinFromNonNegative(acc, rs[..n]);
      if rs[n].Some? { assert IsReading(rs, n); }
    }
  }

  /** A current value of `0.0` is forgotten at the next reading: from any
      zero-valued current extremum the scan of `rs` ends in the same place,
      provided `rs` has a reading at all. */
  lemma {:induction false} MinFromZeroForgotten(acc: Extremum, acc': Extremum, rs: Readings)
    requires acc.value == 0.0 && acc'.value == 0.0
    requires HasReading(rs)
    ensures MinFrom(acc, rs) == MinFrom(acc', rs)
  {
    var n := |rs| - 1;
    var p := rs[..n];
    assert forall j :: 0 <= j < n ==> p[j] == rs[j];
    if HasReading(p) {
      MinFromZeroForgotten(acc, acc', p);
    } else {
      MinFromNoReadings(acc, p);
      MinFromNoReadings(acc', p);
      var k :| IsReading(rs, k);
      if k < n { assert IsReading(p, k); }
    }
  }

  /** A reading of exactly `0.0` is taken, and then overwritten by the very
      next reading: with non-negative readings, everything up to and
      including a zero reading has no effect on the result once a later
      reading exists. */
  lemma MinScanRestartsAfterZero(rs: Readings, z: int)
    requires AllNonNegative(rs)
    requires IsReading(rs, z) && rs[z].value.value == 0.0
    requires HasReading(rs[z + 1..])
    ensures MinFrom(Seed, rs) == MinFrom(Seed, rs[z + 1..])
  {
    assert rs == rs[..z + 1] + rs[z + 1..];
    MinFromAppend(Seed, rs[..z + 1], rs[z + 1..]);
    var p := rs[..z];
    assert rs[..z + 1] == p + [rs[z]];
    assert rs[..z + 1][..z] == p;
    assert AllNonNegative(p) by {
      forall k | IsReading(p, k) ensures p[k].value.value >= 0.0 { assert IsReading(rs, k); }
    }
    MinFromNonNegative(Seed, p);
    MinFromZeroForgotten(MinFrom(Seed, rs[..z + 1]), Seed, rs[z + 1..]);
  }

  /** With non-negative readings, the minimum scan reports `0.0` exactly
      when its last reading is `0.0`, and then it reports that reading. */
  lemma MinScanZeroOnlyWhenLast(rs: Readings, last: int)
    requires AllNonNegative(rs)
    requires IsLastReading(rs, last)
    ensures MinFrom(Seed, rs).value == 0.0 <==> rs[last].value.value == 0.0
    ensures rs[last].value.value == 0.0 ==> MinFrom(Seed, rs) == rs[last].value
  {
    var p := rs[..last];
    assert rs == p + [rs[last]] + rs[last + 1..];
    var q := rs[last + 1..];
    assert !HasReading(q) by {
      forall k | 0 <= k < |q| ensures !IsReading(q, k) {
        assert q[k] == rs[last + 1 + k];
      }
    }
    MinFromAppend(Seed, p + [rs[last]], rs[last + 1..]);
    MinFromNoReadings(MinFrom(Seed, p + [rs[last]]), rs[last + 1..]);
    assert (p + [rs[last]])[..last] == p;
    assert AllNonNegative(p) by {
      forall k | IsReading(p, k) ensures p[k].value.value >= 0.0 { assert IsReading(rs, k); }
    }
    MinFromNonNegative(Seed, p);
  }

  // ---------------------------------------------------------------------
  // Independence of the scan order

  /** The values of the readings, forgetting names and order. */
  ghost function Values(rs: Readings): set<real> {
    set k | 0 <= k < |rs| && rs[k].Some? :: rs[k].value.value
  }

  /** The maximum scan's value bounds every reading, is not below the seed,
      and is the seed's value or one of the readings'. */
  lemma MaxScanValue(rs: Readings)
    ensures MaxFrom(Seed, rs).value >= 0.0
    ensures forall x :: x in Values(rs) ==> x <= MaxFrom(Seed, rs).value
    ensures MaxFrom(Seed, rs).value == 0.0 || MaxFrom(Seed, rs).value in Values(rs)
  {
    MaxScanIsFirstMaximum(rs);
    forall x | x in Values(rs) ensures x <= MaxFrom(Seed, rs).value {
      var k :| 0 <= k < |rs| && rs[k].Some? && rs[k].value.value == x;
      assert IsReading(rs, k);
    }
    if HasPositive(rs) {
      var m :| IsFirstMaximum(rs, m) && MaxFrom(Seed, rs) == rs[m].value;
      assert rs[m].value.value in Values(rs);
    }
  }

  /** The value the maximum scan reports depends only on the set of reading
      values, not on their order (the name may differ on ties). */
  lemma MaxValueDependsOnlyOnValues(rs: Readings, rs': Readings)
    requires Values(rs) == Values(rs')
    ensures MaxFrom(Seed, rs).value == MaxFrom(Seed, rs').value
  {
    MaxScanValue(rs);
    MaxScanValue(rs');
  }

  /** With positive readings, the minimum scan's value is below every
      reading and is one of them, or is the seed's when there is none. */
  lemma MinScanValue(rs: Readings)
    requires AllPositive(rs)
    ensures forall x :: x in Values(rs) ==> MinFrom(Seed, rs).value <= x
    ensures Values(rs) != {} ==> MinFrom(Seed, rs).value in Values(rs)
    ensures Values(rs) == {} ==> MinFrom(Seed, rs).value == 0.0
  {
    MinScanIsFirstMinimum(rs);
    forall x | x in Values(rs) ensures MinFrom(Seed, rs).value <= x {
      var k :| 0 <= k < |rs| && rs[k].Some? && rs[k].value.value == x;
      assert IsReading(rs, k);
    }
    if HasReading(rs) {
      var m :| IsFirstMinimum(rs, m) && MinFrom(Seed, rs) == rs[m].value;
      assert rs[m].value.value in Values(rs);
    } else {
      assert forall k :: 0 <= k < |rs| ==> !IsReading(rs, k);
      assert Values(rs) == {};
    }
  }

  /** The same holds of the minimum scan when every distance is positive. */
  lemma MinValueDependsOnlyOnValues(rs: Readings, rs': Readings)
    requires AllPositive(rs) && AllPositive(rs')
    requires Values(rs) == Values(rs')
    ensures MinFrom(Seed, rs).value == MinFrom(Seed, rs').value
  {
    MinScanValue(rs);
    MinScanValue(rs');
  }
}
