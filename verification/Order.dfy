/** The order on text keys: SQLite's BINARY collation, Go's string comparison and
    the MST's key order are all this byte-wise lexicographic order. */
module Order {

  predicate Less(s: string, t: string) {
    t != [] && (s == [] || s[0] < t[0] || (s[0] == t[0] && Less(s[1..], t[1..])))
  }

  /** Strictly ascending. */
  ghost predicate Ascending(ss: seq<string>) {
    forall i, j :: 0 <= i < j < |ss| ==> Less(ss[i], ss[j])
  }

  lemma {:induction false} LessTotal(s: string, t: string)
    ensures Less(s, t) || s == t || Less(t, s)
    ensures !(Less(s, t) && Less(t, s))
    ensures !Less(s, s)
  {
    if s != [] && t != [] && s[0] == t[0] {
      LessTotal(s[1..], t[1..]);
      assert s == [s[0]] + s[1..] && t == [t[0]] + t[1..];
    }
    if s != [] {
      LessTotal(s[1..], s[1..]);
    }
  }

  lemma {:induction false} LessTransitive(s: string, t: string, u: string)
    requires Less(s, t) && Less(t, u)
    ensures Less(s, u)
  {
    if s != [] && s[0] == t[0] && t[0] == u[0] {
      LessTransitive(s[1..], t[1..], u[1..]);
    }
  }

  /** A common prefix does not matter. */
  lemma {:induction false} LessSamePrefix(p: string, s: string, t: string)
    ensures Less(p + s, p + t) <==> Less(s, t)
  {
    if p == [] {
      assert p + s == s && p + t == t;
    } else {
      assert (p + s)[1..] == p[1..] + s && (p + t)[1..] == p[1..] + t;
      LessSamePrefix(p[1..], s, t);
    }
  }

  /** Two different heads of one length decide the comparison. */
  lemma {:induction false} LessHeads(a: string, b: string, s: string, t: string)
    requires |a| == |b| && a != b
    ensures Less(a + s, b + t) <==> Less(a, b)
  {
    assert (a + s)[1..] == a[1..] + s && (b + t)[1..] == b[1..] + t;
    if a[0] == b[0] {
      assert a == [a[0]] + a[1..] && b == [b[0]] + b[1..];
      LessHeads(a[1..], b[1..], s, t);
    }
  }

  // ----- ORDER BY over a finite set of keys -----

  ghost predicate IsMin(m: string, s: set<string>) {
    m in s && forall x :: x in s ==> x == m || Less(m, x)
  }

  lemma MinExists(s: set<string>)
    requires s != {}
    ensures exists m :: IsMin(m, s)
  {
    var x :| x in s;
    var rest := s - {x};
    if rest == {} {
      assert s == {x};
      assert IsMin(x, s);
    } else {
      MinExists(rest);
      var m :| IsMin(m, rest);
      LessTotal(x, m);
      if Less(x, m) {
        forall y | y in s ensures y == x || Less(x, y) {
          if y != x && y != m {
            assert y in rest;
            LessTransitive(x, m, y);
          }
        }
        assert IsMin(x, s);
      } else {
        assert IsMin(m, s);
      }
    }
  }

  lemma MinUnique(s: set<string>, m: string, n: string)
    requires IsMin(m, s) && IsMin(n, s)
    ensures m == n
  {
    LessTotal(m, n);
  }

  ghost function Min(s: set<string>): (m: string)
    requires s != {}
    ensures IsMin(m, s)
  {
    MinExists(s);
    var m :| IsMin(m, s);
    m
  }

  /** The keys of s in ascending order. */
  ghost function Sort(s: set<string>): seq<string> {
    if s == {} then [] else [Min(s)] + Sort(s - {Min(s)})
  }

  lemma {:induction false} SortSorts(s: set<string>)
    ensures Ascending(Sort(s))
    ensures forall k :: k in s <==> k in Sort(s)
    ensures |Sort(s)| == |s|
  {
    if s != {} {
      var m := Min(s);
      SortSorts(s - {m});
    }
  }
}
