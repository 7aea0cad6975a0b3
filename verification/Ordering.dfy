/** The order in which the ordered maps of the program visit their keys. */
module Ordering {
  import opened Common

  /** Lexicographic order on strings. */
  predicate LessEq(a: string, b: string) {
    a == [] || (b != [] && (a[0] < b[0] || (a[0] == b[0] && LessEq(a[1..], b[1..]))))
  }

  lemma {:induction false} Total(a: string, b: string)
    ensures LessEq(a, b) || LessEq(b, a)
  {
    if a != [] && b != [] && a[0] == b[0] { Total(a[1..], b[1..]); }
  }

  lemma {:induction false} Antisymmetric(a: string, b: string)
    requires LessEq(a, b) && LessEq(b, a)
    ensures a == b
  {
    if a != [] {
      Antisymmetric(a[1..], b[1..]);
      assert a == [a[0]] + a[1..] && b == [b[0]] + b[1..];
    }
  }

  lemma {:induction false} Transitive(a: string, b: string, c: string)
    requires LessEq(a, b) && LessEq(b, c)
    ensures LessEq(a, c)
  {
    if a != [] && a[0] == b[0] == c[0] { Transitive(a[1..], b[1..], c[1..]); }
  }

  predicate IsLeast(s: set<string>, x: string) {
    x in s && forall y {:trigger LessEq(x, y)} | y in s :: LessEq(x, y)
  }

  lemma {:induction false} LeastExists(s: set<string>) returns (x: string)
    requires s != {}
    ensures IsLeast(s, x)
  {
    var y :| y in s;
    if s == {y} {
      x := y;
      Total(y, y);
    } else {
      x := LeastExists(s - {y});
      Total(x, y);
      if LessEq(y, x) {
        forall z | z in s ensures LessEq(y, z) {
          if z != y { Transitive(y, x, z); } else { Total(y, y); }
        }
        x := y;
      }
    }
  }

  lemma HasLeast(s: set<string>)
    requires s != {}
    ensures exists x :: IsLeast(s, x)
  {
    var x := LeastExists(s);
  }

  lemma LeastIsUnique(s: set<string>, x: string, y: string)
    requires IsLeast(s, x) && IsLeast(s, y)
    ensures x == y
  {
    Antisymmetric(x, y);
  }

  /** The least element. */
  ghost function Least(s: set<string>): (x: string)
    requires s != {}
    ensures IsLeast(s, x)
  {
    HasLeast(s);
    var x :| IsLeast(s, x);
    x
  }

  /** The elements in ascending order, each once. */
  ghost function Sorted(s: set<string>): (q: seq<string>)
    ensures forall x :: x in q <==> x in s
    ensures |q| == |s|
  {
    if s == {} then [] else [Least(s)] + Sorted(s - {Least(s)})
  }

  /** Visiting the least remaining element walks through the sorted sequence. */
  lemma SortedStep(s: set<string>, x: string)
    requires IsLeast(s, x)
    ensures Sorted(s) == [x] + Sorted(s - {x})
  {
    LeastIsUnique(s, x, Least(s));
  }

  /** The next key of an ordered map: visiting the least remaining key walks through the sorted keys. */
  method First(s: set<string>) returns (x: string)
    requires s != {}
    ensures x in s && Sorted(s) == [x] + Sorted(s - {x})
  {
    HasLeast(s);
    x :| IsLeast(s, x);
    SortedStep(s, x);
  }

  lemma {:induction false} SortedDistinct(s: set<string>)
    ensures Distinct(Sorted(s))
  {
    if s != {} {
      var rest := Sorted(s - {Least(s)});
      SortedDistinct(s - {Least(s)});
      forall i, j | 0 <= i < j < |s| ensures Sorted(s)[i] != Sorted(s)[j] {
        assert Sorted(s)[j] == rest[j - 1] && rest[j - 1] in rest;
        if i > 0 { assert Sorted(s)[i] == rest[i - 1]; }
      }
    }
  }

  // ---------------------------------------------------------------------------------------------
  // The order of a dictionary
  // ---------------------------------------------------------------------------------------------

  /** Of two different strings the lesser is a prefix, or has the lesser character where they first differ. */
  lemma {:induction false} LessDiffers(a: string, b: string) returns (k: nat)
    requires LessEq(a, b) && a != b
    ensures k <= |a| && k < |b| && a[..k] == b[..k] && (k == |a| || a[k] < b[k])
  {
    if a == [] || a[0] < b[0] {
      k := 0;
    } else {
      assert a == [a[0]] + a[1..] && b == [b[0]] + b[1..];
      k := LessDiffers(a[1..], b[1..]);
      assert a[..k + 1] == [a[0]] + a[1..][..k] && b[..k + 1] == [b[0]] + b[1..][..k];
      k := k + 1;
    }
  }

  lemma {:induction false} DiffersLess(a: string, b: string, k: nat)
    requires k <= |a| && k < |b| && a[..k] == b[..k] && (k == |a| || a[k] < b[k])
    ensures LessEq(a, b) && a != b
  {
    if k > 0 {
      assert a[0] == a[..k][0] == b[..k][0] == b[0];
      assert a[1..][..k - 1] == a[..k][1..] == b[..k][1..] == b[1..][..k - 1];
      DiffersLess(a[1..], b[1..], k - 1);
    }
  }

  lemma {:induction false} SortedAscends(s: set<string>, i: nat, j: nat)
    requires i < j < |Sorted(s)|
    ensures LessEq(Sorted(s)[i], Sorted(s)[j]) && Sorted(s)[i] != Sorted(s)[j]
  {
    SortedDistinct(s);
    var rest := Sorted(s - {Least(s)});
    assert Sorted(s)[j] == rest[j - 1] && rest[j - 1] in rest;
    if i > 0 { SortedAscends(s - {Least(s)}, i - 1, j - 1); }
  }

  /** The keys are visited in the order of a dictionary: a key stands before another of which it is a prefix, or
      which has the greater character where they first differ, at `k`. */
  lemma SortedIsDictionary(s: set<string>, a: string, b: string, k: nat) returns (i: nat, j: nat)
    requires a in s && b in s
    requires k <= |a| && k < |b| && a[..k] == b[..k] && (k == |a| || a[k] < b[k])
    ensures i < j < |Sorted(s)| && Sorted(s)[i] == a && Sorted(s)[j] == b
  {
    i :| 0 <= i < |Sorted(s)| && Sorted(s)[i] == a;
    j :| 0 <= j < |Sorted(s)| && Sorted(s)[j] == b;
    DiffersLess(a, b, k);
    if j < i {
      SortedAscends(s, j, i);
      Antisymmetric(a, b);
    }
  }

  /** Conversely, any two keys that follow each other are in that order. */
  lemma SortedDiffers(s: set<string>, i: nat, j: nat) returns (k: nat)
    requires i < j < |Sorted(s)|
    ensures var a, b := Sorted(s)[i], Sorted(s)[j];
      k <= |a| && k < |b| && a[..k] == b[..k] && (k == |a| || a[k] < b[k])
  {
    SortedAscends(s, i, j);
    k := LessDiffers(Sorted(s)[i], Sorted(s)[j]);
  }
}
