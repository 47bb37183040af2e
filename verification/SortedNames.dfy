/** Python's order on strings (code points, lexicographic) and sorting a set of names. */
module SortedNames {

  predicate Less(a: string, b: string) {
    b != "" && (a == "" || a[0] < b[0] || (a[0] == b[0] && Less(a[1..], b[1..])))
  }

  /** The first difference decides; a proper prefix comes first. */
  lemma {:induction false} LessIsByFirstDifference(a: string, b: string)
    ensures Less(a, b) <==> exists k :: 0 <= k <= |a| && k < |b| && a[..k] == b[..k] && (k == |a| || a[k] < b[k])
  {
    if b == "" {
    } else if a == "" {
      assert a[..0] == b[..0];
    } else {
      LessIsByFirstDifference(a[1..], b[1..]);
      if a[0] == b[0] && Less(a[1..], b[1..]) {
        var k :| 0 <= k <= |a[1..]| && k < |b[1..]| && a[1..][..k] == b[1..][..k] && (k == |a[1..]| || a[1..][k] < b[1..][k]);
        assert a[..k + 1] == [a[0]] + a[1..][..k] && b[..k + 1] == [b[0]] + b[1..][..k];
      }
      if a[0] < b[0] {
        assert a[..0] == b[..0];
      }
      if k :| 0 <= k <= |a| && k < |b| && a[..k] == b[..k] && (k == |a| || a[k] < b[k]) {
        if k > 0 {
          assert a[..k][0] == b[..k][0];
          assert a[1..][..k - 1] == a[..k][1..] == b[..k][1..] == b[1..][..k - 1];
        }
      }
    }
  }

  lemma {:induction false} LessIsStrict(a: string)
    ensures !Less(a, a)
  {
    if a == "" {
    } else {
      LessIsStrict(a[1..]);
    }
  }

  lemma {:induction false} LessIsTransitive(a: string, b: string, c: string)
    requires Less(a, b) && Less(b, c)
    ensures Less(a, c)
  {
    if a != "" && a[0] == b[0] && b[0] == c[0] { LessIsTransitive(a[1..], b[1..], c[1..]); }
  }

  lemma {:induction false} LessIsTotal(a: string, b: string)
    ensures a == b || Less(a, b) || Less(b, a)
  {
    if a != "" && b != "" && a[0] == b[0] {
      LessIsTotal(a[1..], b[1..]);
      assert a == [a[0]] + a[1..] && b == [b[0]] + b[1..];
    }
  }

  predicate Ascending(names: seq<string>) {
    forall i, j :: 0 <= i < j < |names| ==> Less(names[i], names[j])
  }

  /** A set has one ascending listing. */
  lemma {:induction false} AscendingIsUnique(a: seq<string>, b: seq<string>)
    requires Ascending(a) && Ascending(b)
    requires forall n :: n in a <==> n in b
    ensures a == b
  {
    if a == [] {
      SameHeadOrEmpty(b, a);
    } else {
      SameHeadOrEmpty(a, b);
      assert a == [a[0]] + a[1..] && b == [b[0]] + b[1..];
      forall n ensures n in a[1..] <==> n in b[1..] {
        InTail(a, n);
        InTail(b, n);
      }
      AscendingIsUnique(a[1..], b[1..]);
    }
  }

  lemma InTail(a: seq<string>, n: string)
    requires Ascending(a) && a != []
    ensures n in a[1..] <==> n in a && n != a[0]
  {
    if n in a[1..] {
      var i :| 0 <= i < |a[1..]| && a[1..][i] == n;
      assert Less(a[0], a[i + 1]);
      LessIsStrict(n);
    }
  }

  lemma SameHeadOrEmpty(a: seq<string>, b: seq<string>)
    requires Ascending(a) && Ascending(b)
    requires forall n :: n in a <==> n in b
    ensures a != [] ==> b != [] && a[0] == b[0]
  {
    if a != [] {
      assert a[0] in a;
      var i :| 0 <= i < |b| && b[i] == a[0];
      assert b[0] in b;
      var j :| 0 <= j < |a| && a[j] == b[0];
      if a[0] != b[0] {
        LessIsTransitive(a[0], b[0], a[0]);
        LessIsStrict(a[0]);
      }
    }
  }

  function Insert(names: seq<string>, x: string): (r: seq<string>)
    ensures forall n :: n in r <==> n == x || n in names
  {
    if names == [] || Less(x, names[0]) then [x] + names
    else [names[0]] + Insert(names[1..], x)
  }

  lemma {:induction false} InsertKeepsAscending(names: seq<string>, x: string)
    requires Ascending(names) && x !in names
    ensures Ascending(Insert(names, x))
  {
    if names == [] {
    } else if Less(x, names[0]) {
      forall j | 0 < j < |names| ensures Less(x, names[j]) {
        LessIsTransitive(x, names[0], names[j]);
      }
    } else {
      LessIsTotal(x, names[0]);
      var rest := Insert(names[1..], x);
      InsertKeepsAscending(names[1..], x);
      forall j | 0 <= j < |rest| ensures Less(names[0], rest[j]) {
        assert rest[j] in rest;
      }
    }
  }

  method Sorted(s: set<string>) returns (names: seq<string>)
    ensures Ascending(names)
    ensures forall n :: n in names <==> n in s
  {
    names := [];
    var todo := s;
    while todo != {}
      invariant todo <= s && Ascending(names)
      invariant forall n :: n in names <==> n in s - todo
      decreases |todo|
    {
      var x :| x in todo;
      InsertKeepsAscending(names, x);
      names := Insert(names, x);
      todo := todo - {x};
    }
  }
}
