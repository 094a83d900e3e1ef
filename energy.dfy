/** The energy extractor `calc_energy`: the mean magnitude of the bins whose
    frequency lies strictly below a cutoff ("bass energy"). The boolean mask
    `fftx < bass_max_hz`, the masked selection `fft[mask]` and the count of
    `True` entries `sum(mask)` are modelled one by one. */
module Energy {
  import opened RealSeq

  /** `fftx < cutoff`, element by element: the mask selects exactly the bins
      strictly below the cutoff. */
  function Mask(fftx: seq<real>, cutoff: real): (m: seq<bool>)
    ensures |m| == |fftx|
    ensures TrueIndices(m) == BassBins(fftx, cutoff)
  {
    seq(|fftx|, i requires 0 <= i < |fftx| => fftx[i] < cutoff)
  }

  /** `sum(mask)`: the number of `True` entries. It is at most the length,
      and zero exactly when no entry is `True`. */
  function CountTrue(m: seq<bool>): (r: nat)
    ensures r <= |m|
    ensures r == 0 <==> forall i :: 0 <= i < |m| ==> !m[i]
    decreases |m|
  {
    if m == [] then 0 else CountTrue(m[..|m| - 1]) + (if m[|m| - 1] then 1 else 0)
  }

  /** Boolean indexing `fft[mask]`: the entries whose mask entry is `True`, in order. */
  function Select(fft: seq<real>, m: seq<bool>): (r: seq<real>)
    requires |fft| == |m|
    ensures |r| == CountTrue(m)
    decreases |m|
  {
    if m == [] then []
    else
      var n := |m| - 1;
      Select(fft[..n], m[..n]) + (if m[n] then [fft[n]] else [])
  }

  /** The indices a mask selects. */
  ghost function TrueIndices(m: seq<bool>): set<nat>
  {
    set i: nat | i < |m| && m[i]
  }

  /** The indices of the bins strictly below the cutoff. */
  ghost function BassBins(fftx: seq<real>, cutoff: real): set<nat>
  {
    set i: nat | i < |fftx| && fftx[i] < cutoff
  }

  /** Some frequency lies strictly below the cutoff, so the mean is defined. */
  predicate HasBassBin(fftx: seq<real>, cutoff: real)
  {
    exists i :: 0 <= i < |fftx| && fftx[i] < cutoff
  }

  /** The magnitudes with every bin at or above the cutoff replaced by zero. */
  function BassOnly(fftx: seq<real>, fft: seq<real>, cutoff: real): seq<real>
    requires |fftx| == |fft|
  {
    seq(|fft|, i requires 0 <= i < |fft| => if fftx[i] < cutoff then fft[i] else 0.0)
  }

  /** `calc_energy(fftx, fft, bass_max_hz)`: `sum(fft[mask]) / sum(mask)`,
      which is the mean of `fft[mask]` because the selection has `sum(mask)`
      entries. The divisor is positive, and the energy is the total magnitude
      of the bins strictly below the cutoff divided by their number. The
      source divides by zero when no bin lies below the cutoff, so that case
      is excluded. */
  function CalcEnergy(fftx: seq<real>, fft: seq<real>, cutoff: real): (e: real)
    requires |fftx| == |fft|
    requires HasBassBin(fftx, cutoff)
    ensures CountTrue(Mask(fftx, cutoff)) > 0
    ensures e == Sum(BassOnly(fftx, fft, cutoff)) / (CountTrue(Mask(fftx, cutoff)) as real)
  {
    SumOfBassSelection(fftx, fft, cutoff);
    Mean(Select(fft, Mask(fftx, cutoff)))
  }

  /** The selection `fft[mask]` is non-empty and sums to the total magnitude
      below the cutoff. */
  lemma SumOfBassSelection(fftx: seq<real>, fft: seq<real>, cutoff: real)
    requires |fftx| == |fft|
    requires HasBassBin(fftx, cutoff)
    ensures CountTrue(Mask(fftx, cutoff)) > 0
    ensures Sum(Select(fft, Mask(fftx, cutoff))) == Sum(BassOnly(fftx, fft, cutoff))
  {
    var mask := Mask(fftx, cutoff);
    BassCountPositive(fftx, cutoff);
    SumSelectIsMaskedSum(fft, mask);
    assert ZeroFilled(fft, mask) == BassOnly(fftx, fft, cutoff);
  }

  /** With a bin below the cutoff, the divisor `sum(mask)` is not zero. */
  lemma BassCountPositive(fftx: seq<real>, cutoff: real)
    requires HasBassBin(fftx, cutoff)
    ensures CountTrue(Mask(fftx, cutoff)) > 0
  {
    var i :| 0 <= i < |fftx| && fftx[i] < cutoff;
    assert Mask(fftx, cutoff)[i];
  }

  /** The entries a mask selects, with the unselected ones replaced by zero. */
  function ZeroFilled(fft: seq<real>, m: seq<bool>): seq<real>
    requires |fft| == |m|
  {
    seq(|fft|, i requires 0 <= i < |fft| => if m[i] then fft[i] else 0.0)
  }

  /** `sum(fft[mask])` adds every selected magnitude once, each with its
      multiplicity: it is the sum of the zero-filled magnitudes. */
  lemma {:induction false} SumSelectIsMaskedSum(fft: seq<real>, m: seq<bool>)
    requires |fft| == |m|
    ensures Sum(Select(fft, m)) == Sum(ZeroFilled(fft, m))
    decreases |m|
  {
    if m != [] {
      var n := |m| - 1;
      var sel', z', z := Select(fft[..n], m[..n]), ZeroFilled(fft[..n], m[..n]), ZeroFilled(fft, m);
      SumSelectIsMaskedSum(fft[..n], m[..n]);
      var tail: seq<real> := if m[n] then [fft[n]] else [];
      assert Select(fft, m) == sel' + tail;
      SumConcat(sel', tail);
      assert Sum(tail) == z[n] by {
        assert tail != [] ==> tail[..0] == [];
      }
      assert z[..n] == z';
      assert Sum(z) == Sum(z[..n]) + z[n];
    }
  }

  /** `sum(mask)` is the number of indices the mask selects. */
  lemma {:induction false} CountTrueIsCardinality(m: seq<bool>)
    ensures CountTrue(m) == |TrueIndices(m)|
    decreases |m|
  {
    if m != [] {
      var n := |m| - 1;
      var m' := m[..n];
      CountTrueIsCardinality(m');
      assert n !in TrueIndices(m');
      if m[n] {
        assert TrueIndices(m) == TrueIndices(m') + {n};
      } else {
        assert TrueIndices(m) == TrueIndices(m');
      }
    }
  }

  /** A value is selected iff it is the magnitude of some bin whose mask entry is set. */
  lemma {:induction false} SelectMembers(fft: seq<real>, m: seq<bool>, x: real)
    requires |fft| == |m|
    ensures x in Select(fft, m) <==> exists i :: 0 <= i < |m| && m[i] && fft[i] == x
    decreases |m|
  {
    if m != [] {
      var n := |m| - 1;
      SelectMembers(fft[..n], m[..n], x);
      if exists i :: 0 <= i < |m| && m[i] && fft[i] == x {
        var i :| 0 <= i < |m| && m[i] && fft[i] == x;
        if i < n {
          assert m[..n][i] && fft[..n][i] == x;
        }
      }
    }
  }

  /** Only the entries the mask selects influence the selection. */
  lemma {:induction false} SelectLocal(fft: seq<real>, fft': seq<real>, m: seq<bool>)
    requires |fft| == |fft'| == |m|
    requires forall i :: 0 <= i < |m| && m[i] ==> fft[i] == fft'[i]
    ensures Select(fft, m) == Select(fft', m)
    decreases |m|
  {
    if m != [] {
      var n := |m| - 1;
      SelectLocal(fft[..n], fft'[..n], m[..n]);
    }
  }

  /** The energy is the exact mean of the sub-cutoff magnitudes: the sum of
      their magnitudes divided by the number of bins strictly below the
      cutoff, of which there is at least one. */
  lemma CalcEnergyIsMeanOfBassBins(fftx: seq<real>, fft: seq<real>, cutoff: real)
    requires |fftx| == |fft|
    requires HasBassBin(fftx, cutoff)
    ensures |BassBins(fftx, cutoff)| > 0
    ensures CalcEnergy(fftx, fft, cutoff) == Sum(BassOnly(fftx, fft, cutoff)) / (|BassBins(fftx, cutoff)| as real)
  {
    var mask := Mask(fftx, cutoff);
    BassCountPositive(fftx, cutoff);
    CountTrueIsCardinality(mask);
    assert CountTrue(mask) as real == |BassBins(fftx, cutoff)| as real;
  }

  /** The energy lies between any bounds of the sub-cutoff magnitudes; in
      particular it is non-negative when those magnitudes are. */
  lemma CalcEnergyBounds(fftx: seq<real>, fft: seq<real>, cutoff: real, lo: real, hi: real)
    requires |fftx| == |fft|
    requires HasBassBin(fftx, cutoff)
    requires forall i :: 0 <= i < |fft| && fftx[i] < cutoff ==> lo <= fft[i] <= hi
    ensures lo <= CalcEnergy(fftx, fft, cutoff) <= hi
  {
    var mask := Mask(fftx, cutoff);
    var sel := Select(fft, mask);
    forall k | 0 <= k < |sel|
      ensures lo <= sel[k] <= hi
    {
      SelectMembers(fft, mask, sel[k]);
    }
    BassCountPositive(fftx, cutoff);
    MeanBounds(sel, lo, hi);
    assert CalcEnergy(fftx, fft, cutoff) == Mean(sel);
  }

  /** The energy lies between the smallest and the largest sub-cutoff
      magnitude: some bass bin is at most it and some bass bin is at least it. */
  lemma CalcEnergyWithinBassBins(fftx: seq<real>, fft: seq<real>, cutoff: real)
    requires |fftx| == |fft|
    requires HasBassBin(fftx, cutoff)
    ensures exists i :: 0 <= i < |fft| && fftx[i] < cutoff && fft[i] <= CalcEnergy(fftx, fft, cutoff)
    ensures exists j :: 0 <= j < |fft| && fftx[j] < cutoff && CalcEnergy(fftx, fft, cutoff) <= fft[j]
  {
    var mask := Mask(fftx, cutoff);
    var sel := Select(fft, mask);
    BassCountPositive(fftx, cutoff);
    var e := CalcEnergy(fftx, fft, cutoff);
    assert e == Mean(sel);
    MeanBetweenElements(sel);
    var k :| 0 <= k < |sel| && sel[k] <= e;
    SelectMembers(fft, mask, sel[k]);
    var k' :| 0 <= k' < |sel| && e <= sel[k'];
    SelectMembers(fft, mask, sel[k']);
  }

  /** Bins at or above the cutoff do not matter: a bin exactly at the cutoff
      is excluded, because the comparison is strict. */
  lemma CalcEnergyIgnoresUpperBins(fftx: seq<real>, fft: seq<real>, fft': seq<real>, cutoff: real)
    requires |fftx| == |fft| == |fft'|
    requires HasBassBin(fftx, cutoff)
    requires forall i :: 0 <= i < |fftx| && fftx[i] < cutoff ==> fft[i] == fft'[i]
    ensures CalcEnergy(fftx, fft, cutoff) == CalcEnergy(fftx, fft', cutoff)
  {
    SelectLocal(fft, fft', Mask(fftx, cutoff));
  }

  /** Frequencies [100, 200, 300, 400] with magnitudes [2, 4, 6, 8] and cutoff
      300 give mean(2, 4) = 3: the bin at 300 is left out. */
  lemma CalcEnergyExample()
    ensures HasBassBin([100.0, 200.0, 300.0, 400.0], 300.0)
    ensures CalcEnergy([100.0, 200.0, 300.0, 400.0], [2.0, 4.0, 6.0, 8.0], 300.0) == 3.0
  {
    var fftx, fft := [100.0, 200.0, 300.0, 400.0], [2.0, 4.0, 6.0, 8.0];
    assert fftx[0] < 300.0;
    var mask := Mask(fftx, 300.0);
    assert Select(fft, mask) == [2.0, 4.0] by {
      assert mask == [true, true, false, false];
      assert Select(fft[..1], mask[..1]) == [2.0] by {
        assert fft[..1][..0] == [] && mask[..1][..0] == [];
      }
      assert Select(fft[..2], mask[..2]) == [2.0, 4.0] by {
        assert fft[..2][..1] == fft[..1] && mask[..2][..1] == mask[..1];
      }
      assert Select(fft[..3], mask[..3]) == [2.0, 4.0] by {
        assert fft[..3][..2] == fft[..2] && mask[..3][..2] == mask[..2];
      }
    }
    assert Mean([2.0, 4.0]) == 3.0 by {
      assert [2.0, 4.0][..1] == [2.0];
      assert [2.0][..0] == [];
    }
  }
}
