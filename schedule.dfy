/** The cron-and-precision window scheduler: which recurrence instants inside the lookback
    horizon are closed and not yet catalogued. */
module Schedule {
  import opened Wrappers
  import opened Text
  import opened Catalog

  /** A cron recurrence as seen through croniter: `prev(t)` is the latest scheduled instant
      strictly before `t`, `next(t)` the earliest strictly after it. */
  datatype Cron = Cron(prev: int -> int, next: int -> int)

  ghost predicate WellFormed(c: Cron)
  {
    (forall t :: c.prev(t) < t) && (forall t :: c.next(t) > t)
  }

  /** Stepping forward from the instant before an instant returns to it: every value of
      `prev` is a scheduled instant and nothing is scheduled strictly between two neighbours. */
  ghost predicate Aligned(c: Cron)
  {
    forall s {:trigger c.prev(c.prev(s))} :: c.next(c.prev(c.prev(s))) == c.prev(s)
  }

  /** Key length for a precision letter: D, H, M and S keep 10, 13, 16 and 19 characters
      of the timestamp; any other letter is a lookup error. */
  function KeyLength(precision: string): (r: Option<nat>)
    ensures r.Some? <==> precision in {"D", "H", "M", "S"}
    ensures r.Some? ==> r.value in {10, 13, 16, 19}
  {
    match precision
    case "D" => Some(10)
    case "H" => Some(13)
    case "M" => Some(16)
    case "S" => Some(19)
    case _ => None
  }

  /** A finer precision keeps a longer key. */
  lemma KeyLengthsIncrease()
    ensures KeyLength("D") == Some(10) && KeyLength("H") == Some(13)
    ensures KeyLength("M") == Some(16) && KeyLength("S") == Some(19)
  {
  }

  /** The window keys already catalogued at the sensor's own precision. A matching entry
      without an `instance_ts` cannot be sliced: that is an error. */
  function ExistingKeys(datasets: seq<Dataset>, precision: string, len: nat): (r: Result<set<string>, string>)
    ensures r.Success? <==>
      forall i :: 0 <= i < |datasets| && datasets[i].precision == Some(precision) ==> datasets[i].instanceTs.Some?
    ensures r.Success? ==> forall k :: k in r.value <==>
      exists i :: 0 <= i < |datasets| && datasets[i].precision == Some(precision)
                  && datasets[i].instanceTs.Some? && Take(datasets[i].instanceTs.value, len) == k
  {
    if datasets == [] then Success({})
    else
      var d := datasets[0];
      var rest := ExistingKeys(datasets[1..], precision, len);
      assert forall i :: 1 <= i < |datasets| ==> datasets[i] == datasets[1..][i - 1];
      if d.precision != Some(precision) then rest
      else if d.instanceTs.None? then Failure("TypeError: 'NoneType' object is not subscriptable")
      else if rest.Failure? then rest
      else Success({Take(d.instanceTs.value, len)} + rest.value)
  }

  /** The instants visited by the backward walk: `from`, then `prev` of it, and so on,
      while strictly after `floor`. */
  function Walk(c: Cron, from: int, floor: int): seq<int>
    requires WellFormed(c)
    decreases from - floor
  {
    if from <= floor then [] else [from] + Walk(c, c.prev(from), floor)
  }

  /** The visited instants whose key (`render(t)[:len]`) is not catalogued, in visiting order. */
  function Missing(c: Cron, from: int, floor: int, render: int -> string, len: nat, existing: set<string>): seq<int>
    requires WellFormed(c)
    decreases from - floor
  {
    if from <= floor then []
    else (if Take(render(from), len) in existing then [] else [from]) + Missing(c, c.prev(from), floor, render, len, existing)
  }

  predicate StrictlyDescending(s: seq<int>)
  {
    forall i, j :: 0 <= i < j < |s| ==> s[i] > s[j]
  }

  /** The walk is the chain from `from` down through `prev`, stopping at the first instant at or before `floor`. */
  lemma {:induction false} WalkChain(c: Cron, from: int, floor: int)
    requires WellFormed(c)
    ensures var w := Walk(c, from, floor);
      (w == [] <==> from <= floor) &&
      (w != [] ==> w[0] == from && c.prev(w[|w| - 1]) <= floor) &&
      (forall i :: 0 <= i < |w| ==> floor < w[i] <= from) &&
      (forall i :: 0 <= i < |w| - 1 ==> w[i + 1] == c.prev(w[i]))
    decreases from - floor
  {
    if from > floor {
      WalkChain(c, c.prev(from), floor);
    }
  }

  /** The walk visits ever older instants. */
  lemma {:induction false} WalkDescending(c: Cron, from: int, floor: int)
    requires WellFormed(c)
    ensures StrictlyDescending(Walk(c, from, floor))
    decreases from - floor
  {
    if from > floor {
      var tail := Walk(c, c.prev(from), floor);
      var w := Walk(c, from, floor);
      WalkDescending(c, c.prev(from), floor);
      WalkChain(c, c.prev(from), floor);
      assert w == [from] + tail;
      forall i, j | 0 <= i < j < |w|
        ensures w[i] > w[j]
      {
        assert w[j] == tail[j - 1];
        if i > 0 {
          assert w[i] == tail[i - 1];
        }
      }
    }
  }

  /** With an aligned cron, consecutive walk instants tile time: each visited window
      `[w[i], next(w[i]))` ends where the newer one begins, and the newest ends at `prev(from)`... */
  lemma {:induction false} WalkTiles(c: Cron, now: int, floor: int)
    requires WellFormed(c) && Aligned(c)
    ensures var w := Walk(c, c.prev(c.prev(now)), floor);
      (w != [] ==> c.next(w[0]) == c.prev(now) && c.prev(now) < now) &&
      (forall i :: 0 <= i < |w| - 1 ==> c.next(w[i + 1]) == w[i])
  {
    var from := c.prev(c.prev(now));
    var w := Walk(c, from, floor);
    WalkChain(c, from, floor);
    forall i | 0 <= i < |w| - 1
      ensures c.next(w[i + 1]) == w[i]
    {
      if i == 0 {
        assert c.next(c.prev(c.prev(c.prev(now)))) == c.prev(c.prev(now));
      } else {
        assert w[i] == c.prev(w[i - 1]);
        assert c.next(c.prev(c.prev(w[i - 1]))) == c.prev(w[i - 1]);
      }
    }
  }

  /** Everything about the emitted instants: bounds, keys, order and which instants they are. */
  lemma MissingSpec(c: Cron, from: int, floor: int, render: int -> string, len: nat, existing: set<string>)
    requires WellFormed(c)
    ensures var m := Missing(c, from, floor, render, len, existing);
      (forall i :: 0 <= i < |m| ==> floor < m[i] <= from && Take(render(m[i]), len) !in existing) &&
      StrictlyDescending(m) &&
      (forall t :: t in m <==> t in Walk(c, from, floor) && Take(render(t), len) !in existing)
  {
    MissingBounds(c, from, floor, render, len, existing);
    var m := Missing(c, from, floor, render, len, existing);
    assert forall i :: 0 <= i < |m| ==> m[i] in m;
    MissingDescending(c, from, floor, render, len, existing);
    MissingMembers(c, from, floor, render, len, existing);
  }

  lemma {:induction false} MissingBounds(c: Cron, from: int, floor: int, render: int -> string, len: nat, existing: set<string>)
    requires WellFormed(c)
    ensures forall t :: t in Missing(c, from, floor, render, len, existing) ==>
      floor < t <= from && Take(render(t), len) !in existing
    decreases from - floor
  {
    if from > floor {
      MissingBounds(c, c.prev(from), floor, render, len, existing);
      assert c.prev(from) < from;
    }
  }

  lemma {:induction false} MissingDescending(c: Cron, from: int, floor: int, render: int -> string, len: nat, existing: set<string>)
    requires WellFormed(c)
    ensures StrictlyDescending(Missing(c, from, floor, render, len, existing))
    decreases from - floor
  {
    if from > floor {
      MissingDescending(c, c.prev(from), floor, render, len, existing);
      MissingBounds(c, c.prev(from), floor, render, len, existing);
      var tail := Missing(c, c.prev(from), floor, render, len, existing);
      var m := Missing(c, from, floor, render, len, existing);
      assert c.prev(from) < from;
      if Take(render(from), len) !in existing {
        assert m == [from] + tail;
        forall i, j | 0 <= i < j < |m|
          ensures m[i] > m[j]
        {
          assert m[j] == tail[j - 1] && tail[j - 1] in tail;
          if i > 0 {
            assert m[i] == tail[i - 1];
          }
        }
      } else {
        assert m == tail;
      }
    }
  }

  lemma {:induction false} MissingMembers(c: Cron, from: int, floor: int, render: int -> string, len: nat, existing: set<string>)
    requires WellFormed(c)
    ensures var m := Missing(c, from, floor, render, len, existing);
      forall t :: t in m <==> t in Walk(c, from, floor) && Take(render(t), len) !in existing
    decreases from - floor
  {
    if from > floor {
      MissingMembers(c, c.prev(from), floor, render, len, existing);
    }
  }

  /** A set of positive size has an element. */
  lemma NonEmptyHasElement(s: set<int>)
    requires |s| > 0
    ensures exists x :: x in s
  {
    if forall x :: x !in s {
      assert false;
    }
  }

  /** The largest element of a finite non-empty set. */
  method MaxOf(s: set<int>) returns (m: int)
    requires |s| > 0
    ensures m in s && forall x :: x in s ==> x <= m
  {
    NonEmptyHasElement(s);
    m :| m in s;
    var rest := s - {m};
    while |rest| > 0
      invariant rest <= s && m in s
      invariant forall x :: x in s && x !in rest ==> x <= m
      decreases |rest|
    {
      NonEmptyHasElement(rest);
      var x :| x in rest;
      if x > m {
        m := x;
      }
      rest := rest - {x};
    }
  }

  /** Python's `sorted(s, reverse=True)` on a set of instants. */
  method SortDescending(s: set<int>) returns (r: seq<int>)
    ensures StrictlyDescending(r)
    ensures forall x :: x in r <==> x in s
  {
    r := [];
    var rest := s;
    while |rest| > 0
      invariant rest <= s
      invariant forall x :: x in s <==> x in r || x in rest
      invariant forall i, x :: 0 <= i < |r| && x in rest ==> r[i] > x
      invariant StrictlyDescending(r)
      decreases |rest|
    {
      var m := MaxOf(rest);
      r := r + [m];
      rest := rest - {m};
    }
  }

  /** The tail of a strictly descending sequence is strictly descending and holds every
      element but the head. */
  lemma TailMembers(a: seq<int>)
    requires StrictlyDescending(a) && a != []
    ensures StrictlyDescending(a[1..])
    ensures forall x :: x in a[1..] <==> x in a && x != a[0]
  {
    forall x | x in a[1..]
      ensures x in a && x != a[0]
    {
      var i :| 1 <= i < |a| && a[i] == x;
    }
    forall i, j | 0 <= i < j < |a| - 1
      ensures a[1..][i] > a[1..][j]
    {
      assert a[1..][i] == a[i + 1] && a[1..][j] == a[j + 1];
    }
  }

  lemma HeadIsMax(a: seq<int>)
    requires StrictlyDescending(a) && a != []
    ensures forall x :: x in a ==> x <= a[0]
  {
    forall x | x in a
      ensures x <= a[0]
    {
      var i :| 0 <= i < |a| && a[i] == x;
    }
  }

  /** A strictly descending sequence is determined by its elements. */
  lemma {:induction false} DescendingUnique(a: seq<int>, b: seq<int>)
    requires StrictlyDescending(a) && StrictlyDescending(b)
    requires forall x :: x in a <==> x in b
    ensures a == b
    decreases |a|
  {
    assert a == [] <==> b == [] by {
      if a != [] {
        assert a[0] in a;
      }
      if b != [] {
        assert b[0] in b;
      }
    }
    if a != [] {
      assert a[0] == b[0] by {
        assert a[0] in a && b[0] in b;
        assert b[0] in a && a[0] in b;
        HeadIsMax(a);
        HeadIsMax(b);
      }
      TailMembers(a);
      TailMembers(b);
      DescendingUnique(a[1..], b[1..]);
      assert a == [a[0]] + a[1..] && b == [b[0]] + b[1..];
    }
  }
}
