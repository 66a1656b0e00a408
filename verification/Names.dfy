/** Lexicographic order on names, sorting, and the sorted set difference. */
module Names {
  import Multisets

  predicate Less(a: string, b: string) {
    b != [] && (a == [] || a[0] < b[0] || (a[0] == b[0] && Less(a[1..], b[1..])))
  }

  lemma {:induction false} LessIsStrictOrder(a: string, b: string)
    ensures !(Less(a, b) && Less(b, a))
    ensures a == b || Less(a, b) || Less(b, a)
    ensures a == b ==> !Less(a, b)
  {
    if a != [] && b != [] && a[0] == b[0] {
      LessIsStrictOrder(a[1..], b[1..]);
      assert a == [a[0]] + a[1..] && b == [b[0]] + b[1..];
    }
  }

  lemma {:induction false} LessIsTransitive(a: string, b: string, c: string)
    requires Less(a, b) && Less(b, c)
    ensures Less(a, c)
  {
    if a != [] && a[0] == b[0] && b[0] == c[0] {
      LessIsTransitive(a[1..], b[1..], c[1..]);
    }
  }

  ghost predicate Sorted(s: seq<string>) {
    forall i, j :: 0 <= i < j < |s| ==> !Less(s[j], s[i])
  }

  function Insert(x: string, s: seq<string>): (r: seq<string>)
    ensures multiset(r) == multiset{x} + multiset(s)
  {
    if s == [] || !Less(s[0], x) then [x] + s
    else
      assert s == [s[0]] + s[1..];
      [s[0]] + Insert(x, s[1..])
  }

  /** std::sort on names. */
  function Sort(s: seq<string>): (r: seq<string>)
    ensures multiset(r) == multiset(s)
  {
    if s == [] then []
    else
      assert s == [s[0]] + s[1..];
      Insert(s[0], Sort(s[1..]))
  }

  lemma {:induction false} InsertSorted(x: string, s: seq<string>)
    requires Sorted(s)
    ensures Sorted(Insert(x, s))
  {
    if s == [] {
    } else if !Less(s[0], x) {
      forall j | 0 <= j < |s| ensures !Less(s[j], x) {
        if Less(s[j], x) {
          LessIsStrictOrder(s[0], x);
          if s[0] != x { LessIsTransitive(s[j], x, s[0]); }
        }
      }
    } else {
      InsertSorted(x, s[1..]);
      var r := Insert(x, s[1..]);
      LessIsStrictOrder(s[0], x);
      forall j | 0 <= j < |r| ensures !Less(r[j], s[0]) {
        assert r[j] in multiset(r);
        assert r[j] == x || r[j] in s[1..];
      }
    }
  }

  lemma {:induction false} SortSorted(s: seq<string>)
    ensures Sorted(Sort(s))
  {
    if s != [] {
      SortSorted(s[1..]);
      InsertSorted(s[0], Sort(s[1..]));
    }
  }

  /** Two sorted sequences with the same contents are the same. */
  lemma {:induction false} SortedUnique(a: seq<string>, b: seq<string>)
    requires Sorted(a) && Sorted(b) && multiset(a) == multiset(b)
    ensures a == b
  {
    assert |a| == |multiset(a)| && |b| == |multiset(b)|;
    if a != [] {
      assert a[0] in multiset(b) && b[0] in multiset(a);
      var i :| 0 <= i < |b| && b[i] == a[0];
      var j :| 0 <= j < |a| && a[j] == b[0];
      LessIsStrictOrder(a[0], b[0]);
      assert a[0] == b[0];
      assert a == [a[0]] + a[1..] && b == [b[0]] + b[1..];
      assert multiset(a) == multiset(a[1..]) + multiset{a[0]};
      assert multiset(b) == multiset(b[1..]) + multiset{b[0]};
      Multisets.Cancel(multiset(a[1..]), multiset(b[1..]), a[0]);
      SortedUnique(a[1..], b[1..]);
    }
  }

  /** std::set_difference on sorted ranges. */
  function SetDifference(a: seq<string>, b: seq<string>): seq<string>
    decreases |a| + |b|
  {
    if a == [] || b == [] then a
    else if Less(a[0], b[0]) then [a[0]] + SetDifference(a[1..], b)
    else if Less(b[0], a[0]) then SetDifference(a, b[1..])
    else SetDifference(a[1..], b[1..])
  }

  /** A name below the first of a sorted sequence is not in it. */
  lemma BelowAll(x: string, s: seq<string>)
    requires Sorted(s) && s != [] && Less(x, s[0])
    ensures x !in multiset(s)
  {
    if x in multiset(s) {
      var i :| 0 <= i < |s| && s[i] == x;
      LessIsStrictOrder(x, s[0]);
      assert false;
    }
  }

  lemma KeepHead(x: string, a: multiset<string>, b: multiset<string>)
    requires x !in b
    ensures (multiset{x} + a) - b == multiset{x} + (a - b)
  {
  }

  lemma {:induction false} SetDifferenceContents(a: seq<string>, b: seq<string>)
    requires Sorted(a) && Sorted(b)
    ensures multiset(SetDifference(a, b)) == multiset(a) - multiset(b)
    decreases |a| + |b|
  {
    hide Less;
    if a != [] && b != [] {
      assert a == [a[0]] + a[1..] && b == [b[0]] + b[1..];
      LessIsStrictOrder(a[0], b[0]);
      if Less(a[0], b[0]) {
        SetDifferenceContents(a[1..], b);
        BelowAll(a[0], b);
        KeepHead(a[0], multiset(a[1..]), multiset(b));
      } else if Less(b[0], a[0]) {
        SetDifferenceContents(a, b[1..]);
        BelowAll(b[0], a);
        assert multiset(a) - multiset(b) == multiset(a) - multiset(b[1..]);
      } else {
        SetDifferenceContents(a[1..], b[1..]);
      }
    }
  }
}
