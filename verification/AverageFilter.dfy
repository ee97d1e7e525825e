/** The sliding average of avg_filter.c. */
module AverageFilter {
  import opened MachineTypes
  import opened RingQueue

  const FILTER_MAX: int := 16

  function Sum(values: seq<i32>): int {
    if values == [] then 0 else Sum(values[..|values| - 1]) + values[|values| - 1]
  }

  /** The mean of a window, truncated toward zero. */
  function Mean(window: seq<i32>): int
    requires window != []
  {
    TruncDiv(Sum(window), |window|)
  }

  lemma {:induction false} SumBetween(values: seq<i32>, low: int, high: int)
    requires forall i :: 0 <= i < |values| ==> low <= values[i] <= high
    ensures low * |values| <= Sum(values) <= high * |values|
  {
    if values != [] {
      SumBetween(values[..|values| - 1], low, high);
    }
  }

  /** The mean lies between any bounds of the window. */
  lemma MeanBetween(window: seq<i32>, low: int, high: int)
    requires window != [] && forall i :: 0 <= i < |window| ==> low <= window[i] <= high
    ensures low <= Mean(window) <= high
  {
    SumBetween(window, low, high);
    DivBetween(Sum(window), |window|, low, high);
  }

  lemma DivBetween(a: int, n: nat, low: int, high: int)
    requires n > 0 && low * n <= a <= high * n
    ensures low <= TruncDiv(a, n) <= high
  {
    if a >= 0 {
      FloorBetween(a, n, low, high);
    } else {
      assert (-high) * n <= -a <= (-low) * n;
      FloorBetween(-a, n, -high, -low);
    }
  }

  lemma FloorBetween(m: nat, n: nat, low: int, high: int)
    requires n > 0 && low * n <= m <= high * n
    ensures low <= m / n <= high
  {
    var q := m / n;
    assert n * q <= m < n * q + n;
    assert n * (q + 1) == n * q + n && n * (high + 1) == n * high + n;
    if q < low {
      Monotone(n, q + 1, low);
    }
    if high < q {
      Monotone(n, high + 1, q);
    }
  }

  lemma Monotone(n: nat, x: int, y: int)
    requires x <= y
    ensures n * x <= n * y
  {
  }

  /** The mean is the quotient with its fraction cut off, whatever its sign. */
  lemma MeanExactly(window: seq<i32>)
    requires window != []
    ensures Sum(window) >= 0 ==> 0 <= Sum(window) - |window| * Mean(window) < |window|
    ensures Sum(window) <= 0 ==> 0 <= |window| * Mean(window) - Sum(window) < |window|
  {
    var n, a := |window|, Sum(window);
    var q := Mean(window);
    if a >= 0 {
      assert a == n * (a / n) + a % n;
    } else {
      assert -a == n * ((-a) / n) + (-a) % n && q == -((-a) / n);
      assert n * q == -(n * ((-a) / n));
    }
  }

  lemma {:induction false} SumConcat(a: seq<i32>, b: seq<i32>)
    ensures Sum(a + b) == Sum(a) + Sum(b)
  {
    if b == [] {
      assert a + b == a;
    } else {
      assert (a + b)[..|a + b| - 1] == a + b[..|b| - 1];
      SumConcat(a, b[..|b| - 1]);
    }
  }

  /** The values in the buffer, oldest first. */
  function ItemsOf(buffer: seq<i32>, next: int, count: int, size: int): seq<i32>
    requires 0 <= next <= size <= |buffer| && 0 <= count <= size
  {
    if count < size then buffer[..count] else buffer[next..size] + buffer[..next]
  }

  /** Writing one value over the oldest slides the window by one. */
  lemma WindowSlides(buffer: seq<i32>, next: int, count: int, size: int, value: i32)
    requires 0 <= next < size <= |buffer| && 0 <= count <= size
    requires count < size ==> next == count
    ensures var items := ItemsOf(buffer, next, count, size);
            ItemsOf(buffer[next := value], Next(next, size), if count < size then count + 1 else size, size) ==
            (if count < size then items else items[1..]) + [value]
  {
  }

  /** Subtracting the value that leaves and adding the one that enters keeps the sum. */
  lemma SumSlides(items: seq<i32>, full: bool, value: i32)
    requires full ==> items != []
    ensures var rest := if full then items[1..] else items;
            Sum(rest + [value]) == Sum(items) - (if full then items[0] else 0) + value
  {
    var rest := if full then items[1..] else items;
    SumConcat(rest, [value]);
    if full {
      SumConcat([items[0]], rest);
      assert [items[0]] + rest == items;
    }
    assert [value][..0] == [];
    assert full ==> [items[0]][..0] == [];
  }

  lemma SumFits(items: seq<i32>)
    requires |items| <= FILTER_MAX
    ensures -0x8_0000_0000 <= Sum(items) <= 0x8_0000_0000
    ensures items != [] ==> -0x8000_0000 <= Mean(items) < 0x8000_0000
  {
    SumBetween(items, -0x8000_0000, 0x7fff_ffff);
    if items != [] {
      MeanBetween(items, -0x8000_0000, 0x7fff_ffff);
    }
  }

  lemma OldestItem(buffer: seq<i32>, next: int, count: int, size: int)
    requires 0 <= next < size <= |buffer| && 0 <= count <= size
    ensures |ItemsOf(buffer, next, count, size)| == count
    ensures count == size ==> ItemsOf(buffer, next, count, size)[0] == buffer[next]
  {
  }

  lemma KeepSlides(history: seq<i32>, items: seq<i32>, size: nat, value: i32)
    requires size > 0 && items == KeepLast(history, size)
    ensures KeepLast(history + [value], size) == (if |items| < size then items else items[1..]) + [value]
  {
  }

  predicate InRange(length: int, size: int, next: int, count: int) {
    && length == FILTER_MAX && 0 <= size <= FILTER_MAX
    && 0 <= count <= size && (if size == 0 then next == 0 else 0 <= next < size)
    && (count < size ==> next == count)
  }

  /** The buffer holds the most recent values, `sum` is their sum, and it stays far from
      the limits of 64 bits. */
  ghost predicate StateOk(buffer: seq<i32>, size: int, next: int, count: int, sum: int, history: seq<i32>) {
    && InRange(|buffer|, size, next, count)
    && (size > 0 ==> ItemsOf(buffer, next, count, size) == KeepLast(history, size))
    && sum == Sum(ItemsOf(buffer, next, count, size))
    && -0x8_0000_0000 <= sum <= 0x8_0000_0000
  }

  lemma UpdateKeeps(buffer: seq<i32>, size: int, next: int, count: int, sum: int, history: seq<i32>, value: i32)
    requires size > 0 && StateOk(buffer, size, next, count, sum, history)
    ensures var count' := if count < size then count + 1 else count;
            var sum' := (if count < size then sum else sum - buffer[next]) + value;
            && StateOk(buffer[next := value], size, Next(next, size), count', sum', history + [value])
            && KeepLast(history + [value], size) != []
            && Mean(KeepLast(history + [value], size)) == TruncDiv(sum', count')
            && -0x8000_0000 <= TruncDiv(sum', count') < 0x8000_0000
  {
    hide Sum, Mean, KeepLast, ItemsOf, TruncDiv;
    var items := ItemsOf(buffer, next, count, size);
    OldestItem(buffer, next, count, size);
    WindowSlides(buffer, next, count, size, value);
    SumSlides(items, count == size, value);
    KeepSlides(history, items, size, value);
    var slid := (if count < size then items else items[1..]) + [value];
    SumFits(slid);
    MeanIs(slid);
  }

  lemma MeanIs(window: seq<i32>)
    ensures window != [] ==> Mean(window) == TruncDiv(Sum(window), |window|)
  {
  }

  class Filter {
    const buffer: array<i32>
    var filterSize: int
    var nextIndex: int
    var dataCnt: int
    var sum: int
    /** the values since Init or Reset */
    ghost var history: seq<i32>

    ghost predicate Valid()
      reads this, buffer
    {
      StateOk(buffer[..], filterSize, nextIndex, dataCnt, sum, history)
    }

    constructor ()
      ensures Valid() && filterSize == 0 && fresh(buffer)
    {
      buffer := new i32[FILTER_MAX](_ => 0);
      filterSize, nextIndex, dataCnt, sum, history := 0, 0, 0, 0, [];
    }

    method Init(size: int) returns (ok: bool)
      requires Valid()
      modifies this, buffer
      ensures Valid()
      ensures ok <==> 1 <= size <= 16
      ensures ok ==> filterSize == size && history == []
    {
      if size <= 0 || size > FILTER_MAX {
        return false;
      }
      for i := 0 to size {
        buffer[i] := 0;
      }
      filterSize, nextIndex, dataCnt, sum, history := size, 0, 0, 0, [];
      return true;
    }

    /** Feed one value and return the mean of the last min(n, size) values. */
    method Update(newValue: i32) returns (mean: i32)
      requires Valid()
      modifies this`nextIndex, this`dataCnt, this`sum, this`history, buffer
      ensures Valid()
      ensures filterSize == 0 ==> mean == 0 && history == old(history)
      ensures filterSize > 0 ==> history == old(history) + [newValue]
      ensures filterSize > 0 ==> mean == Mean(KeepLast(history, filterSize))
    {
      if filterSize <= 0 || filterSize > FILTER_MAX {
        return 0;
      }
      mean := Feed(newValue);
    }

    method Feed(newValue: i32) returns (mean: i32)
      requires Valid() && filterSize > 0
      modifies this`nextIndex, this`dataCnt, this`sum, this`history, buffer
      ensures Valid() && history == old(history) + [newValue]
      ensures KeepLast(history, filterSize) != [] && mean == Mean(KeepLast(history, filterSize))
    {
      hide Sum, Mean, KeepLast, ItemsOf, TruncDiv, Next;
      var idx := nextIndex;
      UpdateKeeps(buffer[..], filterSize, idx, dataCnt, sum, history, newValue);
      if dataCnt < filterSize {
        dataCnt := dataCnt + 1;
      } else {
        sum := sum - buffer[idx];
      }
      buffer[idx] := newValue;
      sum := sum + newValue;
      nextIndex := Increment(idx, filterSize);
      history := history + [newValue];
      assert buffer[..] == old(buffer[..])[idx := newValue];
      mean := TruncDiv(sum, dataCnt);
    }

    method Reset()
      requires Valid()
      modifies this`nextIndex, this`dataCnt, this`sum, this`history, buffer
      ensures Valid() && history == []
    {
      for i := 0 to filterSize {
        buffer[i] := 0;
      }
      nextIndex, dataCnt, sum, history := 0, 0, 0, [];
    }
  }
}
