/** `generate_transcript`: the course's assignments sorted by score with a
    stable sort. Python's `sorted(..., reverse=True)` keeps items with equal
    keys in their original order, so the descending transcript is a stable
    sort under the reversed comparison, not the ascending one reversed. */
module Transcript {
  import opened Grades

  datatype Direction = Ascending | Descending

  /** Only the exact string "descending" reverses the order; every other
      `sort_order` sorts ascending. */
  function DirectionOf(sortOrder: string): Direction
  {
    if sortOrder == "descending" then Descending else Ascending
  }

  /** Whether `a` may stand before `b` in a transcript sorted in direction `d`. */
  predicate InOrder(d: Direction, a: Assignment, b: Assignment)
  {
    match d
    case Ascending => a.score <= b.score
    case Descending => b.score <= a.score
  }

  ghost predicate Sorted(d: Direction, xs: seq<Assignment>)
  {
    forall i, j :: 0 <= i < j < |xs| ==> InOrder(d, xs[i], xs[j])
  }

  /** The items of `xs` whose score is exactly `k`, in the order of `xs`. */
  function Ties(xs: seq<Assignment>, k: real): seq<Assignment>
  {
    if xs == [] then []
    else if xs[0].score == k then [xs[0]] + Ties(xs[1..], k)
    else Ties(xs[1..], k)
  }

  /** `ys` keeps the relative order that `xs` gives to every group of items
      with equal scores. */
  ghost predicate Stable(xs: seq<Assignment>, ys: seq<Assignment>)
  {
    forall k :: Ties(ys, k) == Ties(xs, k)
  }

  /** Inserts `x` before the first item it may precede, so that it lands in
      front of every item with the same score. */
  function Insert(d: Direction, x: Assignment, ys: seq<Assignment>): (r: seq<Assignment>)
    ensures multiset(r) == multiset{x} + multiset(ys)
  {
    if ys == [] then [x]
    else if InOrder(d, x, ys[0]) then [x] + ys
    else
      assert ys == [ys[0]] + ys[1..];
      [ys[0]] + Insert(d, x, ys[1..])
  }

  /** Stable insertion sort: each item is inserted into the sorted rest of
      the list, ahead of the later items it ties with. */
  function Sort(d: Direction, xs: seq<Assignment>): (r: seq<Assignment>)
    ensures multiset(r) == multiset(xs)
  {
    if xs == [] then []
    else
      assert xs == [xs[0]] + xs[1..];
      Insert(d, xs[0], Sort(d, xs[1..]))
  }

  lemma {:induction false} InsertSorted(d: Direction, x: Assignment, ys: seq<Assignment>)
    requires Sorted(d, ys)
    ensures Sorted(d, Insert(d, x, ys))
  {
    if ys != [] && !InOrder(d, x, ys[0]) {
      var y, rest := ys[0], Insert(d, x, ys[1..]);
      InsertSorted(d, x, ys[1..]);
      forall j | 0 <= j < |rest|
        ensures InOrder(d, y, rest[j])
      {
        assert rest[j] in multiset(rest);
        if rest[j] != x {
          assert rest[j] in ys[1..];
          var m :| 0 <= m < |ys[1..]| && ys[1..][m] == rest[j];
          assert ys[m + 1] == rest[j];
        }
      }
      var r := Insert(d, x, ys);
      assert r == [y] + rest;
      forall i, j | 0 <= i < j < |r|
        ensures InOrder(d, r[i], r[j])
      {
        if i == 0 {
          assert r[j] == rest[j - 1];
        } else {
          assert r[i] == rest[i - 1] && r[j] == rest[j - 1];
        }
      }
    }
  }

  lemma {:induction false} SortSorted(d: Direction, xs: seq<Assignment>)
    ensures Sorted(d, Sort(d, xs))
  {
    if xs != [] {
      SortSorted(d, xs[1..]);
      InsertSorted(d, xs[0], Sort(d, xs[1..]));
    }
  }

  /** Inserting `x` puts it at the front of the items it ties with and
      leaves every other tie group as it was. */
  lemma {:induction false} InsertTies(d: Direction, x: Assignment, ys: seq<Assignment>, k: real)
    ensures Ties(Insert(d, x, ys), k) == if x.score == k then [x] + Ties(ys, k) else Ties(ys, k)
  {
    if ys == [] {
      assert [x][1..] == [];
    } else if InOrder(d, x, ys[0]) {
      assert ([x] + ys)[1..] == ys;
    } else {
      var y := ys[0];
      InsertTies(d, x, ys[1..], k);
      assert ([y] + Insert(d, x, ys[1..]))[1..] == Insert(d, x, ys[1..]);
    }
  }

  lemma {:induction false} SortStable(d: Direction, xs: seq<Assignment>)
    ensures Stable(xs, Sort(d, xs))
  {
    if xs != [] {
      SortStable(d, xs[1..]);
      forall k
        ensures Ties(Sort(d, xs), k) == Ties(xs, k)
      {
        InsertTies(d, xs[0], Sort(d, xs[1..]), k);
      }
    }
  }

  /** `generate_transcript(sort_order)`: the same assignments, sorted by
      score in the requested direction, with tied items in insertion order. */
  function GenerateTranscript(xs: seq<Assignment>, sortOrder: string): (r: seq<Assignment>)
    ensures multiset(r) == multiset(xs)
    ensures sortOrder == "descending" ==> Sorted(Descending, r)
    ensures sortOrder != "descending" ==> Sorted(Ascending, r)
    ensures Stable(xs, r)
  {
    var d := DirectionOf(sortOrder);
    SortSorted(d, xs);
    SortStable(d, xs);
    Sort(d, xs)
  }

  lemma {:induction false} TiesMembers(xs: seq<Assignment>, k: real, x: Assignment)
    ensures x in Ties(xs, k) <==> x in xs && x.score == k
  {
    if xs != [] {
      TiesMembers(xs[1..], k, x);
      assert xs == [xs[0]] + xs[1..];
    }
  }

  /** Only the empty sequence keeps the tie groups of the empty sequence. */
  lemma {:induction false} StableEmpty(a: seq<Assignment>, b: seq<Assignment>)
    requires forall k :: Ties(a, k) == Ties(b, k)
    ensures a == [] ==> b == []
  {
    if b != [] {
      assert b[0] in Ties(b, b[0].score);
    }
  }

  /** Two arrangements that are both sorted in direction `d` and agree on
      the order within every tie group are the same sequence. */
  lemma {:induction false} SortedStableUnique(d: Direction, a: seq<Assignment>, b: seq<Assignment>)
    requires Sorted(d, a) && Sorted(d, b)
    requires Stable(a, b)
    ensures a == b
    decreases |a| + |b|
  {
    if a == [] && b == [] {
    } else if a == [] || b == [] {
      StableEmpty(a, b);
      StableEmpty(b, a);
      assert false;
    } else {
      var ka, kb := a[0].score, b[0].score;
      assert Ties(a, kb) == Ties(b, kb);
      assert Ties(a, ka) == Ties(b, ka);
      assert b[0] in Ties(b, kb);
      TiesMembers(a, kb, b[0]);
      var m :| 0 <= m < |a| && a[m] == b[0];
      assert a[0] in Ties(a, ka);
      TiesMembers(b, ka, a[0]);
      var n :| 0 <= n < |b| && b[n] == a[0];
      if m > 0 {
        assert InOrder(d, a[0], a[m]);
      }
      if n > 0 {
        assert InOrder(d, b[0], b[n]);
      }
      assert ka == kb;
      assert a[0] == Ties(a, ka)[0] == Ties(b, ka)[0] == b[0];
      var a', b' := a[1..], b[1..];
      forall k
        ensures Ties(a', k) == Ties(b', k)
      {
        assert Ties(a, k) == Ties(b, k);
        if k == ka {
          assert Ties(a', k) == Ties(a, k)[1..];
          assert Ties(b', k) == Ties(b, k)[1..];
        } else {
          assert Ties(a', k) == Ties(a, k);
          assert Ties(b', k) == Ties(b, k);
        }
      }
      assert Sorted(d, a') by {
        forall i, j | 0 <= i < j < |a'|
          ensures InOrder(d, a'[i], a'[j])
        {
          assert a'[i] == a[i + 1] && a'[j] == a[j + 1];
        }
      }
      assert Sorted(d, b') by {
        forall i, j | 0 <= i < j < |b'|
          ensures InOrder(d, b'[i], b'[j])
        {
          assert b'[i] == b[i + 1] && b'[j] == b[j + 1];
        }
      }
      SortedStableUnique(d, a', b');
      assert a == [a[0]] + a' && b == [b[0]] + b';
    }
  }

  /** The transcript is the only arrangement of the assignments that is
      sorted in the requested direction and keeps every tie group in
      insertion order. */
  lemma {:induction false} TranscriptUnique(xs: seq<Assignment>, sortOrder: string, ys: seq<Assignment>)
    requires Sorted(DirectionOf(sortOrder), ys)
    requires Stable(xs, ys)
    ensures ys == GenerateTranscript(xs, sortOrder)
  {
    var r := GenerateTranscript(xs, sortOrder);
    var d := DirectionOf(sortOrder);
    assert Sorted(d, r);
    forall k
      ensures Ties(r, k) == Ties(ys, k)
    {
      assert Ties(r, k) == Ties(xs, k);
      assert Ties(ys, k) == Ties(xs, k);
    }
    SortedStableUnique(d, r, ys);
  }

  function Reverse(xs: seq<Assignment>): (r: seq<Assignment>)
    ensures |r| == |xs|
    ensures forall i :: 0 <= i < |xs| ==> r[i] == xs[|xs| - 1 - i]
  {
    if xs == [] then [] else Reverse(xs[1..]) + [xs[0]]
  }

  lemma {:induction false} TiesAppend(xs: seq<Assignment>, ys: seq<Assignment>, k: real)
    ensures Ties(xs + ys, k) == Ties(xs, k) + Ties(ys, k)
  {
    if xs == [] {
      assert xs + ys == ys;
    } else {
      assert (xs + ys)[1..] == xs[1..] + ys;
      TiesAppend(xs[1..], ys, k);
    }
  }

  lemma {:induction false} TiesReverse(xs: seq<Assignment>, k: real)
    ensures Ties(Reverse(xs), k) == Reverse(Ties(xs, k))
  {
    if xs != [] {
      TiesReverse(xs[1..], k);
      TiesAppend(Reverse(xs[1..]), [xs[0]], k);
      assert [xs[0]][1..] == [];
    }
  }

  /** No two assignments share a score. */
  predicate DistinctScores(xs: seq<Assignment>)
  {
    forall i, j :: 0 <= i < j < |xs| ==> xs[i].score != xs[j].score
  }

  lemma {:induction false} DistinctTiesShort(xs: seq<Assignment>, k: real)
    requires DistinctScores(xs)
    ensures |Ties(xs, k)| <= 1
  {
    if xs != [] {
      DistinctTiesShort(xs[1..], k);
      if xs[0].score == k && Ties(xs[1..], k) != [] {
        var y := Ties(xs[1..], k)[0];
        assert y in Ties(xs[1..], k);
        TiesMembers(xs[1..], k, y);
        assert false;
      }
    }
  }

  /** When no two scores tie, the descending transcript is the ascending one
      read backwards. */
  lemma {:induction false} DescendingReversesWithoutTies(xs: seq<Assignment>)
    requires DistinctScores(xs)
    ensures GenerateTranscript(xs, "descending") == Reverse(GenerateTranscript(xs, "ascending"))
  {
    var up := GenerateTranscript(xs, "ascending");
    var r := Reverse(up);
    assert Sorted(Descending, r) by {
      forall i, j | 0 <= i < j < |r|
        ensures InOrder(Descending, r[i], r[j])
      {
        assert InOrder(Ascending, up[|up| - 1 - j], up[|up| - 1 - i]);
      }
    }
    forall k
      ensures Ties(r, k) == Ties(xs, k)
    {
      TiesReverse(up, k);
      DistinctTiesShort(xs, k);
      assert Ties(up, k) == Ties(xs, k);
      var t := Ties(xs, k);
      if |t| == 1 {
        assert Reverse(t) == t;
      }
    }
    TranscriptUnique(xs, "descending", r);
  }

  /** With tied scores the two are different: two items scoring 50 keep
      their insertion order in both directions. */
  lemma DescendingKeepsTieOrder()
    ensures var a, b := Assignment("A", 50.0, 10.0, Formative), Assignment("B", 50.0, 20.0, Formative);
            GenerateTranscript([a, b], "descending") == [a, b]
            && Reverse(GenerateTranscript([a, b], "ascending")) == [b, a]
  {
  }
}
