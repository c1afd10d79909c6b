/** The lexicographic order of names, which is the order a `BTreeSet` of strings iterates in. */
module Names {
  /** `a` comes before `b`: at the first difference `a` is smaller or already finished. */
  predicate Before(a: string, b: string) {
    b != [] && (a == [] || a[0] < b[0] || (a[0] == b[0] && Before(a[1..], b[1..])))
  }

  /** `a` is before `b`: they agree up to some point where `a` ends or has the smaller character. */
  lemma {:induction false} BeforeIs(a: string, b: string)
    ensures Before(a, b) <==> exists k: nat :: SmallerAt(a, b, k)
  {
    if a != [] && b != [] && a[0] == b[0] {
      BeforeIs(a[1..], b[1..]);
      if k: nat :| SmallerAt(a[1..], b[1..], k) {
        assert a[..k + 1] == [a[0]] + a[1..][..k] && b[..k + 1] == [b[0]] + b[1..][..k];
        assert SmallerAt(a, b, k + 1);
      }
      if k: nat :| SmallerAt(a, b, k) {
        assert k > 0;
        assert a[1..][..k - 1] == a[..k][1..] && b[1..][..k - 1] == b[..k][1..];
        assert SmallerAt(a[1..], b[1..], k - 1);
      }
    } else if b != [] && (a == [] || a[0] < b[0]) {
      assert SmallerAt(a, b, 0);
    } else {
      forall k: nat ensures !SmallerAt(a, b, k) {
        LaterAtStart(a, b, k);
      }
    }
  }

  lemma LaterAtStart(a: string, b: string, k: nat)
    requires b == [] || (a != [] && b[0] < a[0])
    ensures !SmallerAt(a, b, k)
  {
    if 0 < k && k <= |a| && k <= |b| {
      assert a[..k][0] == a[0] && b[..k][0] == b[0];
    }
  }

  predicate SmallerAt(a: string, b: string, k: nat) {
    k <= |a| && k < |b| && a[..k] == b[..k] && (k < |a| ==> a[k] as int < b[k] as int)
  }

  lemma {:induction false} BeforeTransitive(a: string, b: string, c: string)
    requires Before(a, b) && Before(b, c)
    ensures Before(a, c)
  {
    if a != [] && a[0] == b[0] == c[0] {
      BeforeTransitive(a[1..], b[1..], c[1..]);
    }
  }

  lemma {:induction false} BeforeTotal(a: string, b: string)
    ensures a == b || Before(a, b) || Before(b, a)
  {
    if a != [] && b != [] && a[0] == b[0] {
      BeforeTotal(a[1..], b[1..]);
      assert a == [a[0]] + a[1..] && b == [b[0]] + b[1..];
    }
  }

  lemma {:induction false} BeforeIrreflexive(a: string)
    ensures !Before(a, a)
  {
    if a != [] {
      BeforeIrreflexive(a[1..]);
    }
  }

  /** Strictly increasing, hence without repetition. */
  ghost predicate Ascending(s: seq<string>) {
    forall i, j :: 0 <= i < j < |s| ==> Before(s[i], s[j])
  }

  /** Insertion into an ordered set. */
  function Insert(s: seq<string>, x: string): (r: seq<string>)
    requires Ascending(s)
    ensures Ascending(r)
    ensures forall y :: y in r <==> y in s || y == x
  {
    if s == [] then [x]
    else if s[0] == x then s
    else if Before(x, s[0]) then
      InsertFirst(s, x);
      [x] + s
    else
      BeforeTotal(x, s[0]);
      assert s == [s[0]] + s[1..];
      var rest := Insert(s[1..], x);
      PrependAscending(s[0], rest);
      [s[0]] + rest
  }

  lemma PrependAscending(first: string, rest: seq<string>)
    requires Ascending(rest) && forall y :: y in rest ==> Before(first, y)
    ensures Ascending([first] + rest)
  {
    var all := [first] + rest;
    forall i, j | 0 <= i < j < |all| ensures Before(all[i], all[j]) {
      assert all[j] in rest;
    }
  }

  lemma InsertFirst(s: seq<string>, x: string)
    requires Ascending(s) && s != [] && Before(x, s[0])
    ensures Ascending([x] + s)
  {
    forall j | 0 <= j < |s| ensures Before(x, s[j]) {
      if j > 0 {
        BeforeTransitive(x, s[0], s[j]);
      }
    }
  }

  /** Collecting names into an ordered set drops repetitions and sorts. */
  method OrderedSet(names: seq<string>) returns (r: seq<string>)
    ensures Ascending(r)
    ensures forall y :: y in r <==> y in names
  {
    r := [];
    for i := 0 to |names|
      invariant Ascending(r)
      invariant forall y :: y in r <==> y in names[..i]
    {
      r := Insert(r, names[i]);
    }
  }

  /** Comparison of whole lists of names: equal, or smaller at the first difference. */
  ghost predicate ListAtMost(a: seq<string>, b: seq<string>) {
    a == b || exists k :: 0 <= k < |a| && k < |b| && a[..k] == b[..k] && Before(a[k], b[k])
  }
}
