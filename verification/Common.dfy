/** Option and result types, the string order of Go's `sort.Strings`, and tallies over sequences. */
module Common {

  datatype Option<+T> = None | Some(value: T)

  datatype Result<+T, +E> = Ok(value: T) | Err(error: E)

  // ---------------------------------------------------------------------------
  // Lexicographic order on strings

  predicate Leq(a: string, b: string) {
    a == "" || (b != "" && (a[0] < b[0] || (a[0] == b[0] && Leq(a[1..], b[1..]))))
  }

  lemma {:induction false} LeqTotal(a: string, b: string)
    ensures Leq(a, b) || Leq(b, a)
  {
    if a != "" && b != "" { LeqTotal(a[1..], b[1..]); }
  }

  lemma {:induction false} LeqAntisymmetric(a: string, b: string)
    requires Leq(a, b) && Leq(b, a)
    ensures a == b
  {
    if a != "" {
      LeqAntisymmetric(a[1..], b[1..]);
      assert a == [a[0]] + a[1..] && b == [b[0]] + b[1..];
    }
  }

  lemma {:induction false} LeqTransitive(a: string, b: string, c: string)
    requires Leq(a, b) && Leq(b, c)
    ensures Leq(a, c)
  {
    if a != "" && a[0] == b[0] == c[0] { LeqTransitive(a[1..], b[1..], c[1..]); }
  }

  predicate IsLeast(m: string, s: set<string>) {
    m in s && forall y :: y in s ==> Leq(m, y)
  }

  lemma {:induction false} LeastExists(s: set<string>)
    requires s != {}
    ensures exists m :: IsLeast(m, s)
  {
    var x :| x in s;
    LeqTotal(x, x);
    if s == {x} {
      assert IsLeast(x, s);
    } else {
      var rest := s - {x};
      assert s == {x} + rest;
      LeastExists(rest);
      var m :| IsLeast(m, rest);
      LeqTotal(x, m);
      if Leq(m, x) {
        assert IsLeast(m, s);
      } else {
        forall y | y in s ensures Leq(x, y) {
          if y != x { LeqTransitive(x, m, y); }
        }
        assert IsLeast(x, s);
      }
    }
  }

  ghost predicate StrictlySorted(r: seq<string>) {
    forall i, j :: 0 <= i < j < |r| ==> Leq(r[i], r[j]) && r[i] != r[j]
  }

  /** `sort.Strings` applied to the keys of a map. */
  function SortedStrings(s: set<string>): (r: seq<string>)
    ensures StrictlySorted(r)
    ensures forall x :: x in r <==> x in s
    ensures |r| == |s|
    decreases |s|
  {
    if s == {} then []
    else
      LeastExists(s);
      assert forall x, y | IsLeast(x, s) && IsLeast(y, s) :: x == y by {
        forall x, y | IsLeast(x, s) && IsLeast(y, s) ensures x == y { LeqAntisymmetric(x, y); }
      }
      var m :| IsLeast(m, s);
      var rest := SortedStrings(s - {m});
      assert forall k :: 0 <= k < |rest| ==> rest[k] in rest;
      [m] + rest
  }

  // ---------------------------------------------------------------------------
  // Tallies: how many elements of a sequence satisfy a predicate

  ghost function Tally<T>(p: T -> bool, s: seq<T>): nat {
    if s == [] then 0 else Tally(p, s[..|s|-1]) + if p(s[|s|-1]) then 1 else 0
  }

  lemma {:induction false} TallyAppend<T>(p: T -> bool, s: seq<T>, x: T)
    ensures Tally(p, s + [x]) == Tally(p, s) + if p(x) then 1 else 0
  {
    assert (s + [x])[..|s|] == s;
  }

  lemma {:induction false} TallyUpdate<T>(p: T -> bool, s: seq<T>, i: nat, x: T)
    requires i < |s|
    ensures Tally(p, s[i := x]) == Tally(p, s) - (if p(s[i]) then 1 else 0) + (if p(x) then 1 else 0)
  {
    var n := |s| - 1;
    if i == n {
      assert s[i := x][..n] == s[..n];
    } else {
      assert s[i := x][..n] == s[..n][i := x];
      TallyUpdate(p, s[..n], i, x);
    }
  }

  lemma {:induction false} TallyPositive<T>(p: T -> bool, s: seq<T>, i: nat)
    requires i < |s| && p(s[i])
    ensures Tally(p, s) >= 1
  {
    if i < |s| - 1 { TallyPositive(p, s[..|s|-1], i); }
  }

  lemma {:induction false} TallyTwo<T>(p: T -> bool, s: seq<T>, i: nat, j: nat)
    requires i < j < |s| && p(s[i]) && p(s[j])
    ensures Tally(p, s) >= 2
  {
    if j < |s| - 1 { TallyTwo(p, s[..|s|-1], i, j); } else { TallyPositive(p, s[..|s|-1], i); }
  }

  lemma {:induction false} TallyWitness<T>(p: T -> bool, s: seq<T>) returns (i: nat)
    requires Tally(p, s) > 0
    ensures i < |s| && p(s[i])
  {
    if p(s[|s|-1]) { i := |s| - 1; } else { i := TallyWitness(p, s[..|s|-1]); }
  }

  lemma {:induction false} TallyBounded<T>(p: T -> bool, s: seq<T>)
    ensures Tally(p, s) <= |s|
    ensures Tally(p, s) == |s| ==> forall i :: 0 <= i < |s| ==> p(s[i])
  {
    if s != [] { TallyBounded(p, s[..|s|-1]); }
  }

  lemma {:induction false} TallyNone<T>(p: T -> bool, s: seq<T>)
    requires forall i :: 0 <= i < |s| ==> !p(s[i])
    ensures Tally(p, s) == 0
  {
    if s != [] { TallyNone(p, s[..|s|-1]); }
  }

  ghost function Sum<T>(f: T -> nat, s: seq<T>): nat {
    if s == [] then 0 else Sum(f, s[..|s|-1]) + f(s[|s|-1])
  }

  lemma {:induction false} SumAppend<T>(f: T -> nat, s: seq<T>, x: T)
    ensures Sum(f, s + [x]) == Sum(f, s) + f(x)
  {
    assert (s + [x])[..|s|] == s;
  }

  lemma {:induction false} SumUpdate<T>(f: T -> nat, s: seq<T>, i: nat, x: T)
    requires i < |s|
    ensures Sum(f, s[i := x]) == Sum(f, s) - f(s[i]) + f(x)
  {
    var n := |s| - 1;
    if i == n {
      assert s[i := x][..n] == s[..n];
    } else {
      assert s[i := x][..n] == s[..n][i := x];
      SumUpdate(f, s[..n], i, x);
    }
  }

  lemma {:induction false} SubsetCardinality<T>(a: set<T>, b: set<T>)
    requires a <= b
    ensures |a| <= |b|
    ensures |a| == |b| ==> a == b
  {
    assert |b| == |a| + |b - a| by { assert b == a + (b - a); }
    if |a| == |b| { assert b - a == {}; }
  }
}
