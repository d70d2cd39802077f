/** Go's order on strings, and the sorted listing of a set of names. */
module Strings {

  /** Go's `<` on strings. */
  predicate StringLess(a: string, b: string)
    decreases |a|
  {
    b != "" && (a == "" || a[0] < b[0] || (a[0] == b[0] && StringLess(a[1..], b[1..])))
  }

  lemma {:induction false} StringLessTotal(a: string, b: string)
    ensures StringLess(a, b) || StringLess(b, a) || a == b
    ensures !(StringLess(a, b) && StringLess(b, a))
    ensures !StringLess(a, a)
    decreases |a|
  {
    if a != "" && b != "" {
      StringLessTotal(a[1..], b[1..]);
      assert a[0] == b[0] && a[1..] == b[1..] ==> a == [a[0]] + a[1..] == b;
    }
    if a != "" {
      StringLessTotal(a[1..], a[1..]);
    }
  }

  lemma {:induction false} StringLessTransitive(a: string, b: string, c: string)
    requires StringLess(a, b) && StringLess(b, c)
    ensures StringLess(a, c)
    decreases |a|
  {
    if a != "" && a[0] == b[0] == c[0] {
      StringLessTransitive(a[1..], b[1..], c[1..]);
    }
  }

  /** The strings agree before `i`; there the first ends, or has the smaller character. */
  ghost predicate PartAt(a: string, b: string, i: nat) {
    i <= |a| && i < |b| && a[..i] == b[..i] && (i == |a| || a[i] < b[i])
  }

  /** The order is the dictionary order. */
  lemma {:induction false} StringLessIff(a: string, b: string)
    ensures StringLess(a, b) <==> exists i: nat :: PartAt(a, b, i)
    decreases |a|
  {
    if a == "" || b == "" {
      assert b != "" ==> PartAt(a, b, 0);
    } else {
      StringLessIff(a[1..], b[1..]);
      if a[0] < b[0] {
        assert PartAt(a, b, 0);
      }
      if a[0] == b[0] && StringLess(a[1..], b[1..]) {
        var i: nat :| PartAt(a[1..], b[1..], i);
        assert a[..i + 1] == [a[0]] + a[1..][..i] && b[..i + 1] == [b[0]] + b[1..][..i];
        assert PartAt(a, b, i + 1);
      }
      if i: nat :| PartAt(a, b, i) {
        LaterPart(a, b, i);
      }
    }
  }

  lemma {:induction false} LaterPart(a: string, b: string, i: nat)
    requires a != "" && b != "" && PartAt(a, b, i)
    ensures a[0] < b[0] || (a[0] == b[0] && i > 0 && PartAt(a[1..], b[1..], i - 1))
  {
    if i > 0 {
      assert a[0] == a[..i][0] == b[..i][0] == b[0];
      assert a[1..][..i - 1] == a[..i][1..] && b[1..][..i - 1] == b[..i][1..];
    }
  }

  // ---------- listing a set ----------

  ghost predicate Ascending(s: seq<string>) {
    forall i, j :: 0 <= i < j < |s| ==> StringLess(s[i], s[j])
  }

  /** `s` is the sorted list of a set of names. */
  ghost predicate IsListing(s: seq<string>, names: set<string>) {
    Ascending(s) && forall n :: n in s <==> n in names
  }

  lemma AscendingAppend(s: seq<string>, x: string)
    requires Ascending(s) && (s != [] ==> StringLess(s[|s| - 1], x))
    ensures Ascending(s + [x])
  {
    forall i | 0 <= i < |s|
      ensures StringLess(s[i], x)
    {
      if i < |s| - 1 {
        StringLessTransitive(s[i], s[|s| - 1], x);
      }
    }
  }

  function Insert(s: seq<string>, x: string): (t: seq<string>)
    requires Ascending(s) && x !in s
    ensures Ascending(t) && forall n :: n in t <==> n in s || n == x
    ensures t[|t| - 1] == x || (s != [] && t[|t| - 1] == s[|s| - 1])
  {
    if s == [] then [x] else
    var init, last := s[..|s| - 1], s[|s| - 1];
    assert s == init + [last];
    StringLessTotal(x, last);
    if StringLess(x, last) then
      var t := Insert(init, x);
      AscendingAppend(t, last);
      t + [last]
    else
      AscendingAppend(s, x);
      s + [x]
  }

  /** The sorted list of a set of names. */
  ghost function Listing(names: set<string>): (s: seq<string>)
    ensures IsListing(s, names)
  {
    if names == {} then [] else
    var n :| n in names;
    Insert(Listing(names - {n}), n)
  }

  lemma AscendingFirst(s: seq<string>, x: string)
    requires Ascending(s) && x in s
    ensures s[0] == x || StringLess(s[0], x)
  {}

  lemma ListingTail(s: seq<string>, names: set<string>)
    requires IsListing(s, names) && s != []
    ensures s[0] in names && IsListing(s[1..], names - {s[0]})
  {
    assert s[0] in s;
    forall n
      ensures n in s[1..] <==> n in names - {s[0]}
    {
      assert s == [s[0]] + s[1..];
      StringLessTotal(s[0], s[0]);
    }
  }

  lemma ListingEmpty(s: seq<string>, names: set<string>)
    requires IsListing(s, names)
    ensures s == [] <==> names == {}
  {
    assert s != [] ==> s[0] in s;
  }

  /** A set has one sorted list. */
  lemma {:induction false} ListingUnique(s: seq<string>, t: seq<string>, names: set<string>)
    requires IsListing(s, names) && IsListing(t, names)
    ensures s == t
    decreases |s|
  {
    ListingEmpty(s, names);
    ListingEmpty(t, names);
    if s != [] {
      assert s[0] in s && t[0] in t;
      AscendingFirst(s, t[0]);
      AscendingFirst(t, s[0]);
      StringLessTotal(s[0], t[0]);
      ListingTail(s, names);
      ListingTail(t, names);
      ListingUnique(s[1..], t[1..], names - {s[0]});
      assert s == [s[0]] + s[1..] && t == [t[0]] + t[1..];
    }
  }

  /** What sets.String.List returns. */
  method List(names: set<string>) returns (r: seq<string>)
    ensures r == Listing(names)
  {
    r := [];
    var todo, done := names, {};
    while todo != {}
      invariant todo + done == names && todo !! done
      invariant IsListing(r, done)
    {
      var n :| n in todo;
      r := Insert(r, n);
      todo, done := todo - {n}, done + {n};
    }
    assert done == names;
    ListingUnique(r, Listing(names), names);
  }
}
