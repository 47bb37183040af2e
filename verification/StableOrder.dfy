/** Stable sorting by a rank, the way Python's `sorted` orders a list by a key. */
module StableOrder {

  /** A two-part sort key, compared lexicographically. */
  datatype Rank = Rank(tier: int, value: real)

  predicate Ahead(a: Rank, b: Rank) {
    a.tier < b.tier || (a.tier == b.tier && a.value < b.value)
  }

  /** Place x behind everything that is not ranked after it. */
  function InsertBehind<T>(sorted: seq<T>, x: T, rank: T -> Rank): (r: seq<T>)
    ensures |r| == |sorted| + 1
  {
    if sorted == [] || !Ahead(rank(x), rank(sorted[|sorted| - 1])) then sorted + [x]
    else InsertBehind(sorted[..|sorted| - 1], x, rank) + [sorted[|sorted| - 1]]
  }

  function StableSort<T>(s: seq<T>, rank: T -> Rank): (r: seq<T>)
    ensures |r| == |s|
  {
    if s == [] then [] else InsertBehind(StableSort(s[..|s| - 1], rank), s[|s| - 1], rank)
  }

  predicate Ranked<T>(s: seq<T>, rank: T -> Rank) {
    forall i, j :: 0 <= i < j < |s| ==> !Ahead(rank(s[j]), rank(s[i]))
  }

  /** Where InsertBehind puts x. */
  lemma {:induction false} InsertedAt<T>(sorted: seq<T>, x: T, rank: T -> Rank) returns (p: nat)
    requires Ranked(sorted, rank)
    ensures p <= |sorted| && InsertBehind(sorted, x, rank) == sorted[..p] + [x] + sorted[p..]
    ensures forall i :: 0 <= i < p ==> !Ahead(rank(x), rank(sorted[i]))
    ensures forall i :: p <= i < |sorted| ==> Ahead(rank(x), rank(sorted[i]))
  {
    var n := |sorted| - 1;
    if sorted == [] || !Ahead(rank(x), rank(sorted[n])) {
      p := |sorted|;
      assert sorted[..p] + [x] + sorted[p..] == sorted + [x];
    } else {
      p := InsertedAt(sorted[..n], x, rank);
      assert sorted[..n][..p] == sorted[..p];
      assert sorted[..n][p..] + [sorted[n]] == sorted[p..];
      assert forall i :: p <= i < n ==> sorted[i] == sorted[..n][i];
    }
  }

  lemma {:induction false} StableSortRanks<T>(s: seq<T>, rank: T -> Rank)
    ensures Ranked(StableSort(s, rank), rank)
  {
    if s == [] {
    } else {
      var before, x := s[..|s| - 1], s[|s| - 1];
      StableSortRanks(before, rank);
      var p := InsertedAt(StableSort(before, rank), x, rank);
    }
  }

  lemma {:induction false} InsertBehindAdds<T>(sorted: seq<T>, x: T, rank: T -> Rank)
    ensures multiset(InsertBehind(sorted, x, rank)) == multiset(sorted) + multiset{x}
  {
    var n := |sorted| - 1;
    if sorted != [] && Ahead(rank(x), rank(sorted[n])) {
      InsertBehindAdds(sorted[..n], x, rank);
      assert sorted == sorted[..n] + [sorted[n]];
    }
  }

  lemma {:induction false} StableSortPermutes<T>(s: seq<T>, rank: T -> Rank)
    ensures multiset(StableSort(s, rank)) == multiset(s)
  {
    if s == [] {
    } else {
      var before, x := s[..|s| - 1], s[|s| - 1];
      StableSortPermutes(before, rank);
      InsertBehindAdds(StableSort(before, rank), x, rank);
      assert s == before + [x];
    }
  }

  /** The list holds x at an earlier place than y. */
  ghost predicate InOrder<T>(s: seq<T>, x: T, y: T) {
    exists a, b :: 0 <= a < b < |s| && s[a] == x && s[b] == y
  }

  lemma InOrderStays<T>(s: seq<T>, last: T, x: T, y: T)
    requires InOrder(s, x, y)
    ensures InOrder(s + [last], x, y)
  {
    var a, b :| 0 <= a < b < |s| && s[a] == x && s[b] == y;
    assert (s + [last])[a] == x && (s + [last])[b] == y;
  }

  /** Items of equal rank keep the order they came in. */
  lemma {:induction false} StableSortKeepsTies<T>(s: seq<T>, rank: T -> Rank, i: nat, j: nat)
    requires i < j < |s|
    requires rank(StableSort(s, rank)[i]) == rank(StableSort(s, rank)[j])
    ensures InOrder(s, StableSort(s, rank)[i], StableSort(s, rank)[j])
  {
    var before, x := s[..|s| - 1], s[|s| - 1];
    var sorted := StableSort(before, rank);
    StableSortRanks(before, rank);
    var p := InsertedAt(sorted, x, rank);
    assert s == before + [x];
    if j == p {
      StableSortPermutes(before, rank);
      assert sorted[i] in multiset(sorted);
      var a :| 0 <= a < |before| && before[a] == sorted[i];
      assert s[a] == sorted[i] && s[|before|] == x;
    } else if i != p {
      var i', j' := if i < p then i else i - 1, if j < p then j else j - 1;
      StableSortKeepsTies(before, rank, i', j');
      InOrderStays(before, x, sorted[i'], sorted[j']);
    }
  }
}
