/** Rows indexed by date: sorting them by date (`sort_index`), mapping their
    values (`to_numeric` on a column) and dropping the rows whose value is
    missing (`dropna`). */
module Series {
  import opened Wrappers

  /** A parsed date, as a day number; earlier dates are smaller. */
  type Date = int

  /** One row of a date-indexed frame, reduced to its date and one value. */
  datatype Dated<T> = Dated(date: Date, value: T)

  predicate SortedByDate<T>(s: seq<Dated<T>>) {
    forall i, j :: 0 <= i < j < |s| ==> s[i].date <= s[j].date
  }

  /** Places `x` before the first row whose date is not earlier than its own. */
  function Insert<T>(x: Dated<T>, s: seq<Dated<T>>): (r: seq<Dated<T>>)
    requires SortedByDate(s)
    ensures SortedByDate(r)
    ensures multiset(r) == multiset(s) + multiset{x}
    ensures |r| == |s| + 1
  {
    if s == [] then [x]
    else if x.date <= s[0].date then [x] + s
    else
      var rest := Insert(x, s[1..]);
      InsertAfterHead(x, s, rest);
      [s[0]] + rest
  }

  /** Putting the first row of `s` back before the rows after it, with `x`
      inserted among them, keeps the order and adds `x`. */
  lemma InsertAfterHead<T>(x: Dated<T>, s: seq<Dated<T>>, rest: seq<Dated<T>>)
    requires s != [] && SortedByDate(s) && s[0].date < x.date
    requires SortedByDate(rest) && multiset(rest) == multiset(s[1..]) + multiset{x}
    ensures SortedByDate([s[0]] + rest)
    ensures multiset([s[0]] + rest) == multiset(s) + multiset{x}
  {
    assert s == [s[0]] + s[1..];
    forall k | 0 <= k < |rest|
      ensures s[0].date <= rest[k].date
    {
      assert rest[k] in multiset(s[1..]) + multiset{x};
    }
    var r := [s[0]] + rest;
    forall i, j | 0 <= i < j < |r|
      ensures r[i].date <= r[j].date
    {
      if i > 0 {
        assert r[i] == rest[i - 1] && r[j] == rest[j - 1];
      } else {
        assert r[j] == rest[j - 1];
      }
    }
  }

  /** `sort_index()` on the date index: the rows in ascending date order. */
  function SortByDate<T>(s: seq<Dated<T>>): (r: seq<Dated<T>>)
    ensures SortedByDate(r)
    ensures multiset(r) == multiset(s)
    ensures |r| == |s|
  {
    if s == [] then []
    else
      assert s == [s[0]] + s[1..];
      Insert(s[0], SortByDate(s[1..]))
  }

  /** Applies `f` to the value of every row, keeping the dates. */
  function MapValues<T, U>(f: T -> U, s: seq<Dated<T>>): (r: seq<Dated<U>>)
    ensures |r| == |s|
    ensures forall i :: 0 <= i < |s| ==> r[i] == Dated(s[i].date, f(s[i].value))
  {
    seq(|s|, i requires 0 <= i < |s| => Dated(s[i].date, f(s[i].value)))
  }

  /** Mapping values keeps the dates, and with them the order. */
  lemma MapSorted<T, U>(f: T -> U, s: seq<Dated<T>>)
    requires SortedByDate(s)
    ensures SortedByDate(MapValues(f, s))
  {
  }

  lemma MapCons<T, U>(f: T -> U, a: Dated<T>, s: seq<Dated<T>>)
    ensures MapValues(f, [a] + s) == [Dated(a.date, f(a.value))] + MapValues(f, s)
  {
  }

  /** Mapping values after inserting is inserting the mapped row. */
  lemma {:induction false} MapInsert<T, U>(f: T -> U, x: Dated<T>, s: seq<Dated<T>>)
    requires SortedByDate(s)
    ensures SortedByDate(MapValues(f, s))
    ensures MapValues(f, Insert(x, s)) == Insert(Dated(x.date, f(x.value)), MapValues(f, s))
  {
    MapSorted(f, s);
    var y := Dated(x.date, f(x.value));
    if s == [] {
      assert MapValues(f, [x]) == [y];
    } else if x.date <= s[0].date {
      MapCons(f, x, s);
    } else {
      var m := MapValues(f, s);
      assert m[1..] == MapValues(f, s[1..]);
      MapInsert(f, x, s[1..]);
      assert Insert(x, s) == [s[0]] + Insert(x, s[1..]);
      MapCons(f, s[0], Insert(x, s[1..]));
      assert Insert(y, m) == [m[0]] + Insert(y, m[1..]);
    }
  }

  /** Converting values and sorting by date can be done in either order: the
      sort looks only at dates. */
  lemma {:induction false} MapSortCommute<T, U>(f: T -> U, s: seq<Dated<T>>)
    ensures MapValues(f, SortByDate(s)) == SortByDate(MapValues(f, s))
  {
    if s != [] {
      var m := MapValues(f, s);
      MapSortCommute(f, s[1..]);
      MapInsert(f, s[0], SortByDate(s[1..]));
      assert m[1..] == MapValues(f, s[1..]);
      assert SortByDate(s) == Insert(s[0], SortByDate(s[1..]));
      assert SortByDate(m) == Insert(m[0], SortByDate(m[1..]));
    }
  }

  /** `dropna(subset=['Price'])`: the rows whose value is present, in order. */
  function DropMissing<T>(s: seq<Dated<Option<T>>>): (r: seq<Dated<T>>)
    ensures |r| <= |s|
    ensures forall i :: 0 <= i < |r| ==> Dated(r[i].date, Some(r[i].value)) in s
  {
    if s == [] then []
    else
      var rest := DropMissing(s[1..]);
      assert forall i :: 0 <= i < |rest| ==> Dated(rest[i].date, Some(rest[i].value)) in s by {
        assert forall y :: y in s[1..] ==> y in s;
      }
      match s[0].value
      case None => rest
      case Some(v) => [Dated(s[0].date, v)] + rest
  }

  /** Each present row is kept as many times as it occurs, and nothing else. */
  lemma {:induction false} DropMissingCount<T>(s: seq<Dated<Option<T>>>, e: Dated<T>)
    ensures multiset(DropMissing(s))[e] == multiset(s)[Dated(e.date, Some(e.value))]
  {
    if s != [] {
      DropMissingCount(s[1..], e);
      assert s == [s[0]] + s[1..];
      var rest := DropMissing(s[1..]);
      match s[0].value
      case None =>
        assert DropMissing(s) == rest;
      case Some(v) =>
        assert DropMissing(s) == [Dated(s[0].date, v)] + rest;
        assert multiset(DropMissing(s)) == multiset{Dated(s[0].date, v)} + multiset(rest);
    }
  }

  /** Dropping missing values from two orderings of the same rows gives two
      orderings of the same rows. */
  lemma DropMissingPermutation<T>(a: seq<Dated<Option<T>>>, b: seq<Dated<Option<T>>>)
    requires multiset(a) == multiset(b)
    ensures multiset(DropMissing(a)) == multiset(DropMissing(b))
  {
    forall e: Dated<T>
      ensures multiset(DropMissing(a))[e] == multiset(DropMissing(b))[e]
    {
      DropMissingCount(a, e);
      DropMissingCount(b, e);
    }
  }

  /** Dropping rows keeps a date-sorted sequence sorted. */
  lemma {:induction false} DropMissingSorted<T>(s: seq<Dated<Option<T>>>)
    requires SortedByDate(s)
    ensures SortedByDate(DropMissing(s))
  {
    if s != [] {
      var rest := DropMissing(s[1..]);
      DropMissingSorted(s[1..]);
      forall k | 0 <= k < |rest|
        ensures s[0].date <= rest[k].date
      {
        var j :| 0 <= j < |s[1..]| && s[1..][j] == Dated(rest[k].date, Some(rest[k].value));
        assert s[j + 1] == s[1..][j];
      }
    }
  }
}
