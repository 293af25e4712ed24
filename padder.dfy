/** The padding comprehension of `load_data_with_labels_optimized`:
    `[signal + [0] * (max_length - len(signal)) for signal in all_signals]`,
    with the zero of the value type as a parameter. */
module Padder {
  import opened Common

  /** `signal + [0] * (max_length - len(signal))`; Python's `[0] * n` is
      empty for a negative `n`, so a signal longer than `maxLength` is left
      as it is. */
  function PadRow<V>(row: seq<V>, maxLength: nat, zero: V): seq<V>
  {
    row + Repeat(zero, if maxLength > |row| then maxLength - |row| else 0)
  }

  /** Every signal right-padded with `zero` up to `maxLength`: the rows keep
      their number and order, each starts with its signal and continues
      with zeros only, up to `maxLength` or its own length if that is
      longer. */
  function Pad<V>(signals: seq<seq<V>>, maxLength: nat, zero: V): (padded: seq<seq<V>>)
    ensures |padded| == |signals|
    ensures forall i :: 0 <= i < |signals| ==>
      |padded[i]| == (if |signals[i]| < maxLength then maxLength else |signals[i]|) &&
      padded[i][..|signals[i]|] == signals[i] &&
      forall k :: |signals[i]| <= k < |padded[i]| ==> padded[i][k] == zero
  {
    seq(|signals|, i requires 0 <= i < |signals| => PadRow(signals[i], maxLength, zero))
  }

  /** Padded to the length of the longest signal, the rows form a
      rectangle: every one has exactly that length. */
  lemma PadToLongest<V>(signals: seq<seq<V>>, maxLength: nat, zero: V)
    requires forall i :: 0 <= i < |signals| ==> |signals[i]| <= maxLength
    ensures forall i :: 0 <= i < |signals| ==> |Pad(signals, maxLength, zero)[i]| == maxLength
  {
  }

  /** Padding what is already padded changes nothing. */
  lemma PadIdempotent<V>(signals: seq<seq<V>>, maxLength: nat, zero: V)
    ensures Pad(Pad(signals, maxLength, zero), maxLength, zero) == Pad(signals, maxLength, zero)
  {
    var once := Pad(signals, maxLength, zero);
    var twice := Pad(once, maxLength, zero);
    forall i | 0 <= i < |signals| ensures twice[i] == once[i] {
      assert twice[i] == PadRow(once[i], maxLength, zero);
      assert Repeat(zero, 0) == [];
      assert once[i] + [] == once[i];
    }
  }

  /** Padding commutes with taking a block of rows. */
  lemma PadSlice<V>(signals: seq<seq<V>>, maxLength: nat, zero: V, lo: nat, hi: nat)
    requires lo <= hi <= |signals|
    ensures Pad(signals, maxLength, zero)[lo..hi] == Pad(signals[lo..hi], maxLength, zero)
  {
    var padded := Pad(signals, maxLength, zero);
    forall k | 0 <= k < hi - lo
      ensures padded[lo..hi][k] == Pad(signals[lo..hi], maxLength, zero)[k]
    {
      assert padded[lo + k] == PadRow(signals[lo + k], maxLength, zero);
      assert signals[lo..hi][k] == signals[lo + k];
    }
  }
}
