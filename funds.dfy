/**
 * The fund folds of the statistics handler: the payments are read once into
 * memory, and a window's funds are the sum of the prices of the payments whose
 * date, parsed to a time stamp, lies in the window.
 */
module Funds {
  import opened Wrappers
  import opened Buckets

  /**
   * A stored payment: its price (a whole number here) and the time stamp its date parses to,
   * None when the date does not parse (JavaScript's NaN).
   */
  datatype Payment = Payment(price: int, time: Option<int>)

  /** NaN fails both comparisons, so an unparsed date lies in no window. */
  predicate InWindow(p: Payment, w: Window) {
    p.time.Some? && Contains(w, p.time.value)
  }

  /** The sum of the prices of the payments in `w`, folded from the first payment to the last. */
  function FundsIn(payments: seq<Payment>, w: Window): int {
    if |payments| == 0 then 0
    else
      var n := |payments|;
      FundsIn(payments[..n - 1], w) + (if InWindow(payments[n - 1], w) then payments[n - 1].price else 0)
  }

  /** No payment in the window (none at all, or none whose date parses to a time inside it) gives 0. */
  lemma {:induction false} FundsNoneInWindow(payments: seq<Payment>, w: Window)
    requires forall i :: 0 <= i < |payments| ==> !InWindow(payments[i], w)
    ensures FundsIn(payments, w) == 0
  {
    if |payments| > 0 {
      var n := |payments|;
      assert forall i :: 0 <= i < n - 1 ==> payments[..n - 1][i] == payments[i];
      FundsNoneInWindow(payments[..n - 1], w);
    }
  }

  /** The forEach over the payment snapshot. */
  method SumFunds(payments: seq<Payment>, w: Window) returns (total: int)
    ensures total == FundsIn(payments, w)
  {
    total := 0;
    var i := 0;
    while i < |payments|
      invariant 0 <= i <= |payments|
      invariant total == FundsIn(payments[..i], w)
    {
      var payment := payments[i];
      if payment.time.Some? && payment.time.value >= w.start && payment.time.value <= w.end {
        total := total + payment.price;
      }
      assert payments[..i + 1][..i] == payments[..i];
      i := i + 1;
    }
    assert payments[..|payments|] == payments;
  }

  /** The funds of two snapshots laid end to end add up. */
  lemma {:induction false} FundsAppend(xs: seq<Payment>, ys: seq<Payment>, w: Window)
    ensures FundsIn(xs + ys, w) == FundsIn(xs, w) + FundsIn(ys, w)
  {
    if |ys| > 0 {
      var n := |ys|;
      assert (xs + ys)[..|xs + ys| - 1] == xs + ys[..n - 1];
      FundsAppend(xs, ys[..n - 1], w);
    } else {
      assert xs + ys == xs;
    }
  }

  /** A payment whose date does not parse adds nothing to any window, wherever it lies in the snapshot. */
  lemma UnparsedPaymentIgnored(xs: seq<Payment>, price: int, ys: seq<Payment>, w: Window)
    ensures FundsIn(xs + [Payment(price, None)] + ys, w) == FundsIn(xs + ys, w)
  {
    FundsAppend(xs + [Payment(price, None)], ys, w);
    FundsAppend(xs, [Payment(price, None)], w);
    FundsAppend(xs, ys, w);
    assert [Payment(price, None)][..0] == [];
  }

  /** Cutting a window in two adjacent pieces splits its funds in two. */
  lemma {:induction false} FundsSplit(payments: seq<Payment>, a: int, m: int, b: int)
    requires a <= m + 1 <= b + 1
    ensures FundsIn(payments, Window(a, b)) == FundsIn(payments, Window(a, m)) + FundsIn(payments, Window(m + 1, b))
  {
    if |payments| > 0 {
      FundsSplit(payments[..|payments| - 1], a, m, b);
    }
  }

  /** The funds of a snapshot, as a measure of windows. */
  function FundsOf(payments: seq<Payment>): Window -> int {
    w => FundsIn(payments, w)
  }

  /** Conservation: over a partition of a window, the funds of the pieces add up to the funds of the whole. */
  lemma FundsPartition(payments: seq<Payment>, ws: seq<Window>, w: Window)
    requires IsPartition(ws, w)
    ensures Sum(ws, FundsOf(payments)) == FundsIn(payments, w)
  {
    forall a, m, b | a <= m + 1 <= b + 1
      ensures FundsOf(payments)(Window(a, b)) == FundsOf(payments)(Window(a, m)) + FundsOf(payments)(Window(m + 1, b))
    {
      FundsSplit(payments, a, m, b);
    }
    PartitionSum(ws, w, FundsOf(payments));
  }
}
