/** How the ODBC sensor's loop cuts the result rows into staging files: up to twenty
    `fetchmany(fetch_rows)` calls per file, a file closed early by the first empty fetch, and
    the loop ended by that same empty fetch. */
module Batching {
  import opened Wrappers

  /** One staging file: how many of the remaining rows it takes and whether an empty fetch
      ended it (`done`). */
  datatype Fill = Fill(taken: nat, done: bool)

  /** The `for batch_i in range(slots)` loop over `n` remaining rows, when each fetch returns
      `min(fr, remaining)` rows: a fetch that returns nothing sets `done` and ends the file. */
  function FileTake(n: nat, fr: nat, slots: nat): (f: Fill)
    ensures f.taken <= n
    decreases n + slots
  {
    if slots == 0 then Fill(0, false)
    else
      var t := Min(fr, n);
      if t == 0 then Fill(0, true)
      else
        var r := FileTake(n - t, fr, slots - 1);
        Fill(t + r.taken, r.done)
  }

  /** The rows that `slots` full fetches hold. */
  function Cap(slots: nat, fr: nat): nat
    decreases slots + fr
  {
    if slots == 0 then 0 else fr + Cap(slots - 1, fr)
  }

  lemma {:induction false} CapIsProduct(slots: nat, fr: nat)
    ensures Cap(slots, fr) == slots * fr
    decreases slots
  {
    if slots > 0 {
      CapIsProduct(slots - 1, fr);
      assert slots * fr == fr + (slots - 1) * fr;
    }
  }

  lemma {:induction false} CapMono(i: nat, j: nat, fr: nat)
    requires i <= j
    ensures Cap(i, fr) <= Cap(j, fr)
    decreases j
  {
    if i < j {
      CapMono(i, j - 1, fr);
    }
  }

  lemma {:induction false} FileTakeClosedForm(n: nat, fr: nat, slots: nat)
    requires fr > 0
    ensures FileTake(n, fr, slots).taken == Min(n, Cap(slots, fr))
    ensures FileTake(n, fr, slots).done <==> slots > 0 && n <= Cap(slots - 1, fr)
    decreases slots
  {
    if slots > 0 && n > 0 {
      FileTakeClosedForm(n - Min(fr, n), fr, slots - 1);
    }
  }

  /** One file of the `for batch_i in range(20)` loop, in closed form: with `fr` rows per
      fetch it takes `min(n, 20 * fr)` rows, and is the last one exactly when the rows run out
      before its twentieth fetch; with no rows per fetch its first fetch is empty. */
  function File(n: nat, fr: nat): Fill
  {
    if fr == 0 then Fill(0, true) else Fill(Min(n, 20 * fr), n <= 19 * fr)
  }

  /** The closed form is what twenty fetches do. */
  lemma FileIsTwentyFetches(n: nat, fr: nat, slots: nat)
    requires slots == 20
    ensures FileTake(n, fr, slots) == File(n, fr)
  {
    if fr > 0 {
      FileTakeClosedForm(n, fr, slots);
      CapIsProduct(slots, fr);
      CapIsProduct(slots - 1, fr);
    }
  }

  /** The staging files of the `while not done` loop, in order. */
  function Batches<T>(s: seq<T>, fr: nat): (bs: seq<seq<T>>)
    ensures bs != []
    decreases |s|
  {
    var f := File(|s|, fr);
    if f.done then [s[..f.taken]] else [s[..f.taken]] + Batches(s[f.taken..], fr)
  }

  /** With `fetch_rows == 0` every fetch is empty: the loop writes one empty file and stops,
      whatever the query returned. */
  lemma NoRowsFetched<T>(s: seq<T>)
    ensures Batches(s, 0) == [[]]
  {
  }

  function Concat<T>(bs: seq<seq<T>>): seq<T>
  {
    if bs == [] then [] else bs[0] + Concat(bs[1..])
  }

  /** The staging files hold every row exactly once, in cursor order. */
  lemma {:induction false} BatchesConcat<T>(s: seq<T>, fr: nat)
    requires fr > 0
    ensures Concat(Batches(s, fr)) == s
    decreases |s|
  {
    var f := File(|s|, fr);
    var bs := Batches(s, fr);
    if f.done {
      assert s[..f.taken] == s;
      assert bs == [s];
      assert Concat(bs) == s + Concat(bs[1..]);
      assert s + [] == s;
    } else {
      BatchesConcat(s[f.taken..], fr);
      assert bs[1..] == Batches(s[f.taken..], fr);
      assert s == s[..f.taken] + s[f.taken..];
    }
  }

  /** Every staging file holds at most twenty fetches' worth of rows, and every file but the
      last more than nineteen fetches' worth (the file before the last is short only when
      the rows ran out during its twentieth fetch). */
  lemma {:induction false} BatchesSizes<T>(s: seq<T>, fr: nat)
    requires fr > 0
    ensures forall k :: 0 <= k < |Batches(s, fr)| ==> |Batches(s, fr)[k]| <= 20 * fr
    ensures forall k :: 0 <= k < |Batches(s, fr)| - 1 ==> 19 * fr < |Batches(s, fr)[k]|
    decreases |s|
  {
    var f := File(|s|, fr);
    var bs := Batches(s, fr);
    if f.done {
      assert bs == [s[..f.taken]];
    } else {
      var rest := Batches(s[f.taken..], fr);
      BatchesSizes(s[f.taken..], fr);
      assert bs == [s[..f.taken]] + rest;
      assert |bs[0]| == f.taken;
      forall k | 0 <= k < |bs|
        ensures |bs[k]| <= 20 * fr && (k < |bs| - 1 ==> 19 * fr < |bs[k]|)
      {
        if k > 0 {
          var j := k - 1;
          assert 0 <= j < |rest|;
          assert bs[k] == rest[j];
          assert |rest[j]| <= 20 * fr;
        }
      }
    }
  }

  /** The number of files for `n` rows, following the loop. */
  ghost function FileCount(n: nat, fr: nat): nat
    requires fr > 0
    decreases n
  {
    var f := File(n, fr);
    if f.done then 1 else 1 + FileCount(n - f.taken, fr)
  }

  /** The size of the last file for `n` rows, following the loop. */
  ghost function LastSize(n: nat, fr: nat): nat
    requires fr > 0
    decreases n
  {
    var f := File(n, fr);
    if f.done then n else LastSize(n - f.taken, fr)
  }

  lemma {:induction false} BatchesShape<T>(s: seq<T>, fr: nat)
    requires fr > 0
    ensures |Batches(s, fr)| == FileCount(|s|, fr)
    ensures |Batches(s, fr)[|Batches(s, fr)| - 1]| == LastSize(|s|, fr)
    decreases |s|
  {
    var f := File(|s|, fr);
    var bs := Batches(s, fr);
    if f.done {
      assert bs == [s[..f.taken]];
    } else {
      var rest := Batches(s[f.taken..], fr);
      BatchesShape(s[f.taken..], fr);
      assert bs == [s[..f.taken]] + rest;
      assert bs[|bs| - 1] == rest[|rest| - 1];
    }
  }

  lemma MulPos(d: int, k: int)
    requires d > 0 && k >= 1
    ensures d * k >= d
  {
    assert d * k == d + d * (k - 1);
  }

  /** Quotient and remainder are the unique pair with `x == d * q + r` and `0 <= r < d`. */
  lemma DivMod(x: int, d: int, q: int, r: int)
    requires d > 0 && 0 <= r < d && x == d * q + r
    ensures x / d == q && x % d == r
  {
    var q', r' := x / d, x % d;
    assert d * q' + r' == d * q + r;
    assert d * (q - q') == r' - r;
    if q - q' >= 1 { MulPos(d, q - q'); }
    if q' - q >= 1 { MulPos(d, q' - q); }
  }

  lemma ShiftDivMod(x: nat, d: nat)
    requires d > 0
    ensures (x + d) / d == x / d + 1 && (x + d) % d == x % d
  {
    assert d * (x / d + 1) == d * (x / d) + d;
    DivMod(x + d, d, x / d + 1, x % d);
  }

  lemma {:induction false} FileCountClosedForm(n: nat, fr: nat)
    requires fr > 0
    ensures FileCount(n, fr) == (n + fr - 1) / (20 * fr) + 1
    decreases n
  {
    var b := 20 * fr;
    if n <= 19 * fr {
      DivMod(n + fr - 1, b, 0, n + fr - 1);
    } else if n < b {
      assert FileCount(n, fr) == 1 + FileCount(0, fr);
      DivMod(n + fr - 1, b, 1, n + fr - 1 - b);
    } else {
      FileCountClosedForm(n - b, fr);
      ShiftDivMod(n - b + fr - 1, b);
    }
  }

  lemma {:induction false} LastSizeClosedForm(n: nat, fr: nat)
    requires fr > 0
    ensures LastSize(n, fr) == if n % (20 * fr) <= 19 * fr then n % (20 * fr) else 0
    decreases n
  {
    var b := 20 * fr;
    if n < b {
      DivMod(n, b, 0, n);
      if n > 19 * fr {
        assert LastSize(n, fr) == LastSize(0, fr);
      }
    } else {
      LastSizeClosedForm(n - b, fr);
      ShiftDivMod(n - b, b);
    }
  }

  /** The number of staging files, and so of `append_data` calls: one per twenty non-empty
      fetches, rounded down, plus the file in which the empty fetch comes. */
  lemma BatchesCount<T>(s: seq<T>, fr: nat)
    requires fr > 0
    ensures |Batches(s, fr)| == (|s| + fr - 1) / (20 * fr) + 1
  {
    BatchesShape(s, fr);
    FileCountClosedForm(|s|, fr);
  }

  /** The count is `n // (20 * fetch_rows) + 1` only when the remainder is at most
      `19 * fetch_rows`; otherwise one more file is written. */
  lemma CountAgainstFloor(n: nat, fr: nat)
    requires fr > 0
    ensures (n + fr - 1) / (20 * fr) + 1 ==
      n / (20 * fr) + (if n % (20 * fr) <= 19 * fr then 1 else 2)
  {
    var b := 20 * fr;
    var q, r := n / b, n % b;
    assert b * (q + 1) == b * q + b;
    if r <= 19 * fr {
      DivMod(n + fr - 1, b, q, r + fr - 1);
    } else {
      DivMod(n + fr - 1, b, q + 1, r + fr - 1 - b);
    }
  }

  /** The last staging file holds the remainder of the rows modulo `20 * fetch_rows`, and is
      empty when that remainder is zero or over `19 * fetch_rows` (the twentieth fetch of
      the file before it took those rows). */
  lemma LastBatchSize<T>(s: seq<T>, fr: nat)
    requires fr > 0
    ensures var bs := Batches(s, fr);
      |bs[|bs| - 1]| == if |s| % (20 * fr) <= 19 * fr then |s| % (20 * fr) else 0
  {
    BatchesShape(s, fr);
    LastSizeClosedForm(|s|, fr);
  }
}
