/** Strings as the scripts compare them: prefixes, suffixes, the order `sort()` uses. */
module Text {

  datatype Option<+T> = None | Some(value: T)

  predicate StartsWith(s: string, prefix: string) {
    prefix <= s
  }

  predicate EndsWith(s: string, suffix: string) {
    |suffix| <= |s| && s[|s| - |suffix|..] == suffix
  }

  /** Code-unit order, the order of `<` on strings and of `sort()` without a comparator. */
  predicate Less(a: string, b: string) {
    b != "" && (a == "" || a[0] < b[0] || (a[0] == b[0] && Less(a[1..], b[1..])))
  }

  lemma {:induction false} LessTransitive(a: string, b: string, c: string)
    requires Less(a, b) && Less(b, c)
    ensures Less(a, c)
  {
    if a != "" && a[0] == b[0] && b[0] == c[0] {
      LessTransitive(a[1..], b[1..], c[1..]);
    }
  }

  lemma {:induction false} LessTotal(a: string, b: string)
    ensures a == b || Less(a, b) || Less(b, a)
    ensures !(Less(a, b) && Less(b, a))
    ensures a == b ==> !Less(a, b)
  {
    if a != "" && b != "" {
      LessTotal(a[1..], b[1..]);
      assert a == [a[0]] + a[1..] && b == [b[0]] + b[1..];
    }
  }

  predicate StrictlySorted(xs: seq<string>) {
    forall i, j :: 0 <= i < j < |xs| ==> Less(xs[i], xs[j])
  }

  lemma FirstIsMember(xs: seq<string>)
    ensures xs == [] || xs[0] in xs
  {}

  /** A set has one sorted listing. */
  lemma {:induction false} SortedUnique(xs: seq<string>, ys: seq<string>)
    requires StrictlySorted(xs) && StrictlySorted(ys)
    requires forall x :: x in xs <==> x in ys
    ensures xs == ys
  {
    if xs == [] {
      FirstIsMember(ys);
    } else {
      assert xs[0] in ys;
      var j :| 0 <= j < |ys| && ys[j] == xs[0];
      assert ys[0] in xs;
      var i :| 0 <= i < |xs| && xs[i] == ys[0];
      LessTotal(xs[0], ys[0]);
      assert xs[0] == ys[0];
      var xt, yt := xs[1..], ys[1..];
      forall x ensures x in xt <==> x in yt {
        if x in xt {
          var k :| 0 <= k < |xt| && xt[k] == x;
          assert Less(xs[0], xs[k + 1]);
          LessTotal(xs[0], xs[0]);
          assert x in xs;
          assert x in yt;
        }
        if x in yt {
          var k :| 0 <= k < |yt| && yt[k] == x;
          assert Less(ys[0], ys[k + 1]);
          LessTotal(ys[0], ys[0]);
          assert x in ys;
          assert x in xt;
        }
      }
      SortedUnique(xt, yt);
      assert xs == [xs[0]] + xt && ys == [ys[0]] + yt;
    }
  }

  /** Where `x` belongs in a sorted listing that does not hold it. */
  method InsertionPoint(xs: seq<string>, x: string) returns (k: nat)
    requires StrictlySorted(xs) && x !in xs
    ensures k <= |xs|
    ensures forall i :: 0 <= i < k ==> Less(xs[i], x)
    ensures forall i :: k <= i < |xs| ==> Less(x, xs[i])
  {
    k := 0;
    while k < |xs| && Less(xs[k], x)
      invariant k <= |xs|
      invariant forall i :: 0 <= i < k ==> Less(xs[i], x)
    {
      k := k + 1;
    }
    if k < |xs| {
      LessTotal(xs[k], x);
      forall i | k <= i < |xs| ensures Less(x, xs[i]) {
        if k < i { LessTransitive(x, xs[k], xs[i]); }
      }
    }
  }

  lemma EmptyIsSorted()
    ensures StrictlySorted([])
  {}

  lemma Inserted(xs: seq<string>, x: string, k: nat)
    requires StrictlySorted(xs) && k <= |xs|
    requires forall i :: 0 <= i < k ==> Less(xs[i], x)
    requires forall i :: k <= i < |xs| ==> Less(x, xs[i])
    ensures var r := xs[..k] + [x] + xs[k..];
            StrictlySorted(r) && forall y :: y in r <==> y == x || y in xs
  {
    var r := xs[..k] + [x] + xs[k..];
    InsertedMembers(xs, x, k);
    hide Less;
    forall i, j | 0 <= i < j < |r| ensures Less(r[i], r[j]) {
      InsertedAt(xs, x, k, i);
      InsertedAt(xs, x, k, j);
    }
  }

  lemma InsertedAt(xs: seq<string>, x: string, k: nat, i: nat)
    requires k <= |xs| && i <= |xs|
    ensures (xs[..k] + [x] + xs[k..])[i] == if i < k then xs[i] else if i == k then x else xs[i - 1]
  {}

  lemma InsertedMembers(xs: seq<string>, x: string, k: nat)
    requires k <= |xs|
    ensures forall y :: y in xs[..k] + [x] + xs[k..] <==> y == x || y in xs
  {
    assert xs == xs[..k] + xs[k..];
  }

  /** `[...set].sort()`. */
  method SortedListing(s: set<string>) returns (r: seq<string>)
    ensures StrictlySorted(r)
    ensures forall x :: x in r <==> x in s
  {
    hide Less, StrictlySorted;
    EmptyIsSorted();
    r := [];
    var todo := s;
    while todo != {}
      invariant StrictlySorted(r)
      invariant todo <= s
      invariant forall x :: x in r <==> x in s - todo
      decreases todo
    {
      var x :| x in todo;
      var k := InsertionPoint(r, x);
      Inserted(r, x, k);
      r := r[..k] + [x] + r[k..];
      todo := todo - {x};
    }
  }
}
