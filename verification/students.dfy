/**
  The pure part of `top_students` in 101-students.py: each student document
  gets an `averageScore` (the exact mean of its topic scores, or 0 without
  topics) and the documents are returned stably sorted by that score, highest
  first. Documents are records with their other fields kept opaque; the
  collection query that produces them is replaced by an input sequence.
 */
module Students {
  import opened Wrappers

  /** One entry of a student's `topics` list. */
  datatype Topic = Topic(title: string, score: int)

  /**
    A student document: its id, the fields the ranking does not read, the
    `topics` list (None when the document has no such field) and the
    `averageScore` field (None until it is set).
   */
  datatype Student = Student(id: string, fields: map<string, string>, topics: Option<seq<Topic>>, averageScore: Option<real>)

  /** The scores of a student's topics, in list order; a missing list reads as empty. */
  function Scores(s: Student): (r: seq<int>)
    ensures s.topics.None? ==> r == []
    ensures s.topics.Some? ==> |r| == |s.topics.value|
    ensures s.topics.Some? ==> forall i :: 0 <= i < |r| ==> r[i] == s.topics.value[i].score
  {
    match s.topics
    case None => []
    case Some(ts) => seq(|ts|, i requires 0 <= i < |ts| => ts[i].score)
  }

  /** Sum of a list of integers. */
  function Sum(xs: seq<int>): int
  {
    if |xs| == 0 then 0 else xs[0] + Sum(xs[1..])
  }

  /** The mean of the scores as an exact real, or 0 for an empty list. */
  function Average(xs: seq<int>): (r: real)
    ensures |xs| > 0 ==> r * (|xs| as real) == Sum(xs) as real
    ensures |xs| == 0 ==> r == 0.0
  {
    if |xs| > 0 then (Sum(xs) as real) / (|xs| as real) else 0.0
  }

  /** Summing scores that all lie in [lo, hi] gives a total in [lo * n, hi * n]. */
  lemma {:induction false} SumBetween(xs: seq<int>, lo: int, hi: int)
    requires forall i :: 0 <= i < |xs| ==> lo <= xs[i] <= hi
    ensures lo * |xs| <= Sum(xs) <= hi * |xs|
  {
    if |xs| > 0 {
      SumBetween(xs[1..], lo, hi);
    }
  }

  /** The average of scores that all lie in [lo, hi] lies in [lo, hi]. */
  lemma AverageBetween(xs: seq<int>, lo: int, hi: int)
    requires |xs| > 0
    requires forall i :: 0 <= i < |xs| ==> lo <= xs[i] <= hi
    ensures lo as real <= Average(xs) <= hi as real
  {
    SumBetween(xs, lo, hi);
    var n := |xs| as real;
    assert Average(xs) * n == Sum(xs) as real;
    assert (lo as real) * n <= Average(xs) * n <= (hi as real) * n;
  }

  /** The document with `averageScore` set from its own topics; every other field is kept. */
  function WithAverage(s: Student): (r: Student)
    ensures r.id == s.id && r.fields == s.fields && r.topics == s.topics
    ensures r.averageScore.Some?
    ensures |Scores(s)| > 0 ==> r.averageScore.value * (|Scores(s)| as real) == Sum(Scores(s)) as real
    ensures |Scores(s)| == 0 ==> r.averageScore.value == 0.0
  {
    s.(averageScore := Some(Average(Scores(s))))
  }

  /** A document's `averageScore` agrees with its own topics. */
  predicate HasOwnAverage(s: Student)
  {
    s.averageScore == Some(Average(Scores(s)))
  }

  /** The sort key: the `averageScore` field (never absent once `WithAverage` has run). */
  function Rank(s: Student): real
  {
    match s.averageScore
    case Some(a) => a
    case None => 0.0
  }

  /** Non-increasing by rank. */
  predicate SortedDesc(s: seq<Student>)
  {
    forall i, j :: 0 <= i < j < |s| ==> Rank(s[i]) >= Rank(s[j])
  }

  /** The documents of `s` whose rank is `k`, in their order in `s`. */
  function WithRank(s: seq<Student>, k: real): (r: seq<Student>)
    ensures |r| <= |s|
  {
    if |s| == 0 then []
    else (if Rank(s[0]) == k then [s[0]] else []) + WithRank(s[1..], k)
  }

  /** `b` keeps the relative order `a` gives to every group of equally ranked documents. */
  ghost predicate StableWith(b: seq<Student>, a: seq<Student>)
  {
    forall k :: WithRank(b, k) == WithRank(a, k)
  }

  /** The groups of a sequence that starts with `x`: `x` joins its own group at the front. */
  lemma WithRankCons(x: Student, s: seq<Student>, k: real)
    ensures WithRank([x] + s, k) == (if Rank(x) == k then [x] else []) + WithRank(s, k)
  {
  }

  /**
    Insert `x` into `s` in front of the first document it ranks at least as
    high as, so `x` stays ahead of documents of equal rank.
   */
  function Insert(x: Student, s: seq<Student>): (r: seq<Student>)
    ensures |r| == |s| + 1
    ensures multiset(r) == multiset(s) + multiset{x}
    decreases |s|
  {
    if |s| == 0 then [x]
    else if Rank(x) >= Rank(s[0]) then [x] + s
    else
      assert s == [s[0]] + s[1..];
      [s[0]] + Insert(x, s[1..])
  }

  /** Inserting into a sorted sequence keeps it sorted. */
  lemma {:induction false} InsertKeepsSorted(x: Student, s: seq<Student>)
    requires SortedDesc(s)
    ensures SortedDesc(Insert(x, s))
    decreases |s|
  {
    var r := Insert(x, s);
    if |s| > 0 && Rank(x) < Rank(s[0]) {
      var rest := Insert(x, s[1..]);
      InsertKeepsSorted(x, s[1..]);
      assert r == [s[0]] + rest;
      forall j | 0 <= j < |rest|
        ensures Rank(s[0]) >= Rank(rest[j])
      {
        assert rest[j] in multiset(rest);
        if rest[j] != x {
          assert rest[j] in multiset(s[1..]);
          var m :| 0 <= m < |s[1..]| && s[1..][m] == rest[j];
          assert s[m + 1] == rest[j];
        }
      }
    }
  }

  /** Inserting `x` puts it at the front of its own rank group and leaves every other group alone. */
  lemma {:induction false} InsertWithRank(x: Student, s: seq<Student>, k: real)
    ensures WithRank(Insert(x, s), k) == (if Rank(x) == k then [x] else []) + WithRank(s, k)
    decreases |s|
  {
    if |s| == 0 {
      WithRankCons(x, [], k);
    } else if Rank(x) >= Rank(s[0]) {
      WithRankCons(x, s, k);
    } else {
      InsertWithRank(x, s[1..], k);
      WithRankCons(s[0], Insert(x, s[1..]), k);
      WithRankCons(s[0], s[1..], k);
      assert s == [s[0]] + s[1..];
    }
  }

  /**
    Python's `sorted(..., reverse=True)`: highest rank first, documents of equal
    rank in their original order.
   */
  function SortDesc(s: seq<Student>): (r: seq<Student>)
    ensures |r| == |s|
    ensures multiset(r) == multiset(s)
    ensures SortedDesc(r)
    ensures StableWith(r, s)
    decreases |s|
  {
    if |s| == 0 then []
    else
      var rest := SortDesc(s[1..]);
      InsertKeepsSorted(s[0], rest);
      assert s == [s[0]] + s[1..];
      assert forall k :: WithRank(Insert(s[0], rest), k) == WithRank(s, k) by {
        forall k ensures WithRank(Insert(s[0], rest), k) == WithRank(s, k) {
          InsertWithRank(s[0], rest, k);
          WithRankCons(s[0], s[1..], k);
        }
      }
      Insert(s[0], rest)
  }

  /** No document of `s` ranks as high as `k`, so the group of rank `k` is empty. */
  lemma {:induction false} NoneRanked(s: seq<Student>, k: real)
    requires forall i :: 0 <= i < |s| ==> Rank(s[i]) < k
    ensures WithRank(s, k) == []
    decreases |s|
  {
    if |s| > 0 {
      NoneRanked(s[1..], k);
    }
  }

  /** The first document of a sequence is in its own rank group. */
  lemma HeadGroupNonEmpty(s: seq<Student>)
    requires |s| > 0
    ensures WithRank(s, Rank(s[0])) != []
  {
  }

  /**
    A sorted, stable arrangement is unique: two sequences sorted by rank with
    the same equal-rank groups are the same sequence.
   */
  lemma {:induction false} SortedStableUnique(a: seq<Student>, b: seq<Student>)
    requires SortedDesc(a) && SortedDesc(b)
    requires StableWith(a, b)
    ensures a == b
    decreases |a| + |b|
  {
    if |a| == 0 && |b| == 0 {
      return;
    }
    if |a| == 0 {
      HeadGroupNonEmpty(b);
      assert false;
    }
    if |b| == 0 {
      HeadGroupNonEmpty(a);
      assert false;
    }
    assert a == [a[0]] + a[1..];
    assert b == [b[0]] + b[1..];
    var m := Rank(a[0]);
    if Rank(b[0]) < m {
      NoneRanked(b, m);
      WithRankCons(a[0], a[1..], m);
      assert false;
    }
    if Rank(b[0]) > m {
      NoneRanked(a, Rank(b[0]));
      WithRankCons(b[0], b[1..], Rank(b[0]));
      assert false;
    }
    forall k ensures WithRank(a[1..], k) == WithRank(b[1..], k) {
      WithRankCons(a[0], a[1..], k);
      WithRankCons(b[0], b[1..], k);
      assert WithRank(a, k) == WithRank(b, k);
      if k == m {
        assert Rank(b[0]) == k;
        assert WithRank(a, k) == [a[0]] + WithRank(a[1..], k);
        assert WithRank(b, k) == [b[0]] + WithRank(b[1..], k);
        assert WithRank(a[1..], k) == WithRank(a, k)[1..];
        assert WithRank(b[1..], k) == WithRank(b, k)[1..];
      } else {
        assert WithRank(a, k) == WithRank(a[1..], k);
        assert WithRank(b, k) == WithRank(b[1..], k);
      }
    }
    WithRankCons(a[0], a[1..], m);
    WithRankCons(b[0], b[1..], m);
    assert WithRank(a, m) == WithRank(b, m);
    assert WithRank(a, m)[0] == a[0];
    SortedStableUnique(a[1..], b[1..]);
  }

  /** Every document with its `averageScore` set, in input order. */
  function Annotated(s: seq<Student>): (r: seq<Student>)
    ensures |r| == |s|
    ensures forall i :: 0 <= i < |r| ==> r[i] == WithAverage(s[i])
  {
    seq(|s|, i requires 0 <= i < |s| => WithAverage(s[i]))
  }

  /**
    `top_students` after the query: set each document's `averageScore`, then
    return all of them sorted by it, highest first, ties in input order.
   */
  method TopStudents(students: seq<Student>) returns (ranked: seq<Student>)
    ensures |ranked| == |students|
    ensures multiset(ranked) == multiset(Annotated(students))
    ensures forall i :: 0 <= i < |ranked| ==> HasOwnAverage(ranked[i])
    ensures forall i :: 0 <= i < |ranked| ==>
      exists j :: 0 <= j < |students| && ranked[i] == students[j].(averageScore := ranked[i].averageScore)
    ensures SortedDesc(ranked)
    ensures StableWith(ranked, Annotated(students))
  {
    var results: seq<Student> := [];
    for n := 0 to |students|
      invariant |results| == n
      invariant forall i :: 0 <= i < n ==> results[i] == WithAverage(students[i])
    {
      results := results + [WithAverage(students[n])];
    }
    assert results == Annotated(students);
    ranked := SortDesc(results);
    forall i | 0 <= i < |ranked|
      ensures HasOwnAverage(ranked[i])
      ensures exists j :: 0 <= j < |students| && ranked[i] == students[j].(averageScore := ranked[i].averageScore)
    {
      assert ranked[i] in multiset(results);
      var j :| 0 <= j < |results| && results[j] == ranked[i];
      assert ranked[i] == students[j].(averageScore := ranked[i].averageScore);
    }
  }

  /** The ranking is the one arrangement that is sorted by average and keeps ties in input order. */
  lemma TopStudentsIsTheStableSort(students: seq<Student>, ranked: seq<Student>, other: seq<Student>)
    requires SortedDesc(ranked) && StableWith(ranked, Annotated(students))
    requires SortedDesc(other) && StableWith(other, Annotated(students))
    ensures other == ranked
  {
    SortedStableUnique(other, ranked);
  }

  /** A document without topics, or with an empty list, averages 0. */
  lemma NoTopicsAverageZero(s: Student)
    requires s.topics.None? || s.topics == Some([])
    ensures WithAverage(s).averageScore == Some(0.0)
  {
  }
}
