/**
 * The order of the answer: `sorted(found.items(), key=lambda x: (x[1], x[0]))`,
 * by depth first and then by name, names compared as Python compares strings
 * (code point by code point, a proper prefix first).
 */
module Ranking {

  /** A found person and its depth. */
  type Hit = (string, nat)

  /** Python's `<` on `str`. */
  predicate NameLess(a: string, b: string) {
    if |a| == 0 then |b| > 0
    else if |b| == 0 then false
    else if a[0] != b[0] then a[0] < b[0]
    else NameLess(a[1..], b[1..])
  }

  lemma {:induction false} NameLessIrreflexive(a: string)
    ensures !NameLess(a, a)
  {
    if |a| > 0 {
      NameLessIrreflexive(a[1..]);
    }
  }

  lemma {:induction false} NameLessTransitive(a: string, b: string, c: string)
    requires NameLess(a, b) && NameLess(b, c)
    ensures NameLess(a, c)
  {
    if |a| > 0 && |b| > 0 && |c| > 0 && a[0] == b[0] && b[0] == c[0] {
      NameLessTransitive(a[1..], b[1..], c[1..]);
    }
  }

  lemma {:induction false} NameLessTotal(a: string, b: string)
    requires a != b
    ensures NameLess(a, b) || NameLess(b, a)
  {
    if |a| > 0 && |b| > 0 && a[0] == b[0] {
      NameLessTotal(a[1..], b[1..]);
    }
  }

  /** The sort key `(depth, name)`, compared as a Python tuple. */
  predicate HitLess(x: Hit, y: Hit) {
    x.1 < y.1 || (x.1 == y.1 && NameLess(x.0, y.0))
  }

  lemma HitLessTransitive(x: Hit, y: Hit, z: Hit)
    requires HitLess(x, y) && HitLess(y, z)
    ensures HitLess(x, z)
  {
    if x.1 == y.1 && y.1 == z.1 {
      NameLessTransitive(x.0, y.0, z.0);
    }
  }

  lemma HitLessTotal(x: Hit, y: Hit)
    requires x != y
    ensures HitLess(x, y) || HitLess(y, x)
  {
    if x.1 == y.1 {
      NameLessTotal(x.0, y.0);
    }
  }

  predicate StrictlySorted(s: seq<Hit>) {
    forall i, j :: 0 <= i < j < |s| ==> HitLess(s[i], s[j])
  }

  /** `h` put in its place in a sorted sequence that does not hold it. */
  function Insert(h: Hit, s: seq<Hit>): (r: seq<Hit>)
    requires StrictlySorted(s) && h !in s
    ensures StrictlySorted(r) && |r| == |s| + 1
    ensures forall x :: x in r <==> x == h || x in s
  {
    if |s| == 0 then [h]
    else if HitLess(h, s[0]) then
      assert forall j :: 0 <= j < |s| ==> HitLess(h, s[j]) by {
        forall j | 0 < j < |s|
          ensures HitLess(h, s[j])
        {
          HitLessTransitive(h, s[0], s[j]);
        }
      }
      [h] + s
    else
      HitLessTotal(h, s[0]);
      var rest := Insert(h, s[1..]);
      assert forall x :: x in rest ==> HitLess(s[0], x) by {
        forall x | x in rest
          ensures HitLess(s[0], x)
        {
          if x != h {
            var j :| 0 <= j < |s[1..]| && s[1..][j] == x;
            assert s[j + 1] == x;
          }
        }
      }
      [s[0]] + rest
  }

  /** The found map as a list ordered by `(depth, name)`. */
  method SortHits(found: map<string, nat>) returns (out: seq<Hit>)
    ensures StrictlySorted(out) && |out| == |found|
    ensures forall h :: h in out <==> h.0 in found && found[h.0] == h.1
    ensures forall i, j :: 0 <= i < |out| && 0 <= j < |out| && out[i].0 == out[j].0 ==> i == j
  {
    out := [];
    var todo := found.Keys;
    while todo != {}
      invariant todo <= found.Keys
      invariant StrictlySorted(out) && |out| + |todo| == |found|
      invariant forall h :: h in out <==> h.0 in found && h.0 !in todo && found[h.0] == h.1
      decreases |todo|
    {
      var name :| name in todo;
      out := Insert((name, found[name]), out);
      todo := todo - {name};
    }
    forall i, j | 0 <= i < |out| && 0 <= j < |out| && out[i].0 == out[j].0
      ensures i == j
    {
      assert out[i] in out && out[j] in out;
      if i < j || j < i {
        NameLessIrreflexive(out[i].0);
      }
    }
  }

  /** A strictly sorted list is determined by its elements: the order of the answer is unique. */
  lemma {:induction false} SortedUnique(s: seq<Hit>, t: seq<Hit>)
    requires StrictlySorted(s) && StrictlySorted(t)
    requires forall h :: h in s <==> h in t
    ensures s == t
  {
    if |s| > 0 {
      NonEmptyAlike(s, t);
    }
    if |t| > 0 {
      NonEmptyAlike(t, s);
    }
    if |s| > 0 && |t| > 0 {
      assert s[0] == t[0] by {
        if s[0] != t[0] {
          assert s[0] in s && t[0] in t;
          var i :| 0 <= i < |t| && t[i] == s[0];
          var j :| 0 <= j < |s| && s[j] == t[0];
          HitLessTransitive(s[0], s[j], s[0]);
          NameLessIrreflexive(s[0].0);
        }
      }
      forall h
        ensures h in s[1..] <==> h in t[1..]
      {
        if h in s[1..] {
          var i :| 0 < i < |s| && s[i] == h;
          NotFirst(s, i);
          assert h in s;
          var k :| 0 <= k < |t| && t[k] == h;
          assert k != 0;
          assert t[1..][k - 1] == h;
        }
        if h in t[1..] {
          var i :| 0 < i < |t| && t[i] == h;
          NotFirst(t, i);
          assert h in t;
          var k :| 0 <= k < |s| && s[k] == h;
          assert k != 0;
          assert s[1..][k - 1] == h;
        }
      }
      SortedUnique(s[1..], t[1..]);
      assert s == [s[0]] + s[1..] && t == [t[0]] + t[1..];
    }
  }

  lemma NonEmptyAlike(s: seq<Hit>, t: seq<Hit>)
    requires |s| > 0 && forall h :: h in s <==> h in t
    ensures |t| > 0
  {
    assert s[0] in s;
  }

  lemma NotFirst(s: seq<Hit>, i: nat)
    requires StrictlySorted(s) && 0 < i < |s|
    ensures s[i] != s[0]
  {
    if s[i] == s[0] {
      NameLessIrreflexive(s[0].0);
    }
  }
}
