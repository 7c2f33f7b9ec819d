/** Sequences of names read as sets. */
module Lists {

  function Elements(s: seq<string>): set<string> {
    set x | x in s
  }

  predicate Distinct(s: seq<string>) {
    forall i, j :: 0 <= i < j < |s| ==> s[i] != s[j]
  }

  lemma {:induction false} DistinctSize(s: seq<string>)
    requires Distinct(s)
    ensures |Elements(s)| == |s|
  {
    if s != [] {
      var n := |s| - 1;
      DistinctSize(s[..n]);
      assert Elements(s) == Elements(s[..n]) + {s[n]};
      assert s[n] !in s[..n];
    }
  }

  lemma {:induction false} DistinctMultiset(s: seq<string>)
    requires Distinct(s)
    ensures multiset(s) == multiset(Elements(s))
  {
    if s != [] {
      var n := |s| - 1;
      assert s == s[..n] + [s[n]];
      DistinctMultiset(s[..n]);
      assert Elements(s) == Elements(s[..n]) + {s[n]};
      assert s[n] !in s[..n];
    }
  }

  /** The elements of a sequence in the order of their first occurrences. */
  function Firsts(s: seq<string>): seq<string> {
    if s == [] then []
    else
      var init, last := s[..|s| - 1], s[|s| - 1];
      Firsts(init) + if last in init then [] else [last]
  }

  lemma {:induction false} FirstsDistinct(s: seq<string>)
    requires Distinct(s)
    ensures Firsts(s) == s
  {
    if s != [] {
      FirstsDistinct(s[..|s| - 1]);
      assert s[|s| - 1] !in s[..|s| - 1];
    }
  }

  lemma {:induction false} FirstsPrefix(s: seq<string>, t: seq<string>)
    requires s <= t
    ensures Firsts(s) <= Firsts(t)
    decreases |t|
  {
    if s != t {
      FirstsPrefix(s, t[..|t| - 1]);
    }
  }

  /** Leaving out a repetition changes nothing. */
  lemma {:induction false} FirstsRepeat(a: seq<string>, x: string, b: seq<string>)
    requires x in a
    ensures Firsts(a + [x] + b) == Firsts(a + b)
    decreases |b|
  {
    if b == [] {
      assert a + [x] + b == a + [x] && a + b == a && (a + [x])[..|a|] == a;
    } else {
      var init, last := b[..|b| - 1], b[|b| - 1];
      var u, v := a + [x] + b, a + b;
      assert u[..|u| - 1] == a + [x] + init && v[..|v| - 1] == a + init;
      assert u[|u| - 1] == last && v[|v| - 1] == last;
      FirstsRepeat(a, x, init);
    }
  }
}
