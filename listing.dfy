/**
 * `listdir`: the entries `read_dir` yields, sorted. All entries share the
 * same parent, so `PathBuf`'s component-wise order reduces to comparing the
 * entry names, character by character.
 */
module Listing {
  import opened Wrappers

  /** Lexicographic order on names, character by character: a prefix comes
      first, and a name never precedes its own proper prefix. */
  function LexLe(a: string, b: string): (r: bool)
    ensures a <= b ==> r
    ensures b < a ==> !r
    decreases |a|
  {
    a == [] || (b != [] && (a[0] < b[0] || (a[0] == b[0] && LexLe(a[1..], b[1..]))))
  }

  lemma {:induction false} LexLeReflexive(a: string)
    ensures LexLe(a, a)
    decreases |a|
  {
    if a != [] {
      LexLeReflexive(a[1..]);
    }
  }

  lemma {:induction false} LexLeTotal(a: string, b: string)
    ensures LexLe(a, b) || LexLe(b, a)
    decreases |a|
  {
    if a != [] && b != [] && a[0] == b[0] {
      LexLeTotal(a[1..], b[1..]);
    }
  }

  lemma {:induction false} LexLeAntisymmetric(a: string, b: string)
    requires LexLe(a, b) && LexLe(b, a)
    ensures a == b
    decreases |a|
  {
    if a != [] && b != [] {
      LexLeAntisymmetric(a[1..], b[1..]);
      assert a == [a[0]] + a[1..];
      assert b == [b[0]] + b[1..];
    }
  }

  lemma {:induction false} LexLeTransitive(a: string, b: string, c: string)
    requires LexLe(a, b) && LexLe(b, c)
    ensures LexLe(a, c)
    decreases |a|
  {
    if a != [] && b != [] && c != [] && a[0] == b[0] == c[0] {
      LexLeTransitive(a[1..], b[1..], c[1..]);
    }
  }

  /** Every name is ordered before every later name. */
  ghost predicate Sorted(s: seq<string>) {
    forall i, j :: 0 <= i < j < |s| ==> LexLe(s[i], s[j])
  }

  /** A name that precedes the first of a sorted sequence precedes all of it. */
  lemma SortedCons(x: string, s: seq<string>)
    requires Sorted(s) && s != [] && LexLe(x, s[0])
    ensures Sorted([x] + s)
  {
    forall i, j | 0 <= i < j < |s| + 1 ensures LexLe(([x] + s)[i], ([x] + s)[j]) {
      if i == 0 && j > 1 { LexLeTransitive(x, s[0], s[j - 1]); }
    }
  }

  /** A name that precedes every name of a sorted multiset may go in front. */
  lemma SortedConsAll(x: string, rest: seq<string>, m: multiset<string>)
    requires Sorted(rest) && multiset(rest) == m
    requires forall y :: y in m ==> LexLe(x, y)
    ensures Sorted([x] + rest)
  {
    forall i, j | 0 <= i < j < |rest| + 1 ensures LexLe(([x] + rest)[i], ([x] + rest)[j]) {
      if i == 0 { assert rest[j - 1] in multiset(rest); }
    }
  }

  /** The first name of a sorted sequence precedes every later one. */
  lemma SortedHeadLeast(s: seq<string>)
    requires Sorted(s) && s != []
    ensures Sorted(s[1..])
    ensures forall y :: y in multiset(s[1..]) ==> LexLe(s[0], y)
  {
    forall y | y in multiset(s[1..]) ensures LexLe(s[0], y) {
      var j :| 0 <= j < |s[1..]| && s[1..][j] == y;
      assert s[j + 1] == y;
    }
  }

  /** Insert `x` into the sorted `s` before the first name it does not follow. */
  function Insert(x: string, s: seq<string>): (r: seq<string>)
    requires Sorted(s)
    ensures Sorted(r)
    ensures multiset(r) == multiset(s) + multiset{x}
  {
    if s == [] then [x]
    else if LexLe(x, s[0]) then
      SortedCons(x, s);
      [x] + s
    else
      LexLeTotal(x, s[0]);
      SortedHeadLeast(s);
      var rest := Insert(x, s[1..]);
      assert s == [s[0]] + s[1..];
      SortedConsAll(s[0], rest, multiset(s[1..]) + multiset{x});
      assert multiset([s[0]] + rest) == multiset{s[0]} + multiset(rest);
      [s[0]] + rest
  }

  /** The names of `s`, sorted (insertion sort). */
  function SortNames(s: seq<string>): (r: seq<string>)
    ensures Sorted(r)
    ensures multiset(r) == multiset(s)
  {
    if s == [] then []
    else
      assert s == [s[0]] + s[1..];
      Insert(s[0], SortNames(s[1..]))
  }

  /** Two sorted arrangements of the same names are the same sequence: the
      order the organiser walks is determined by the names alone. */
  lemma {:induction false} SortedUnique(a: seq<string>, b: seq<string>)
    requires Sorted(a) && Sorted(b) && multiset(a) == multiset(b)
    ensures a == b
    decreases |a|
  {
    if a != [] {
      assert |b| == |a| by { assert |multiset(a)| == |multiset(b)|; }
      SameFirst(a, b);
      assert a == [a[0]] + a[1..];
      assert b == [b[0]] + b[1..];
      assert multiset(a[1..]) == multiset(a) - multiset{a[0]};
      assert multiset(b[1..]) == multiset(b) - multiset{b[0]};
      SortedUnique(a[1..], b[1..]);
    }
  }

  /** Two sorted arrangements of the same names start with the same name. */
  lemma SameFirst(a: seq<string>, b: seq<string>)
    requires Sorted(a) && Sorted(b) && multiset(a) == multiset(b) && a != [] && b != []
    ensures a[0] == b[0]
  {
    assert a[0] in multiset(b);
    assert b[0] in multiset(a);
    var i :| 0 <= i < |b| && b[i] == a[0];
    var j :| 0 <= j < |a| && a[j] == b[0];
    if i > 0 { assert LexLe(b[0], b[i]); } else { LexLeReflexive(b[0]); }
    if j > 0 { assert LexLe(a[0], a[j]); } else { LexLeReflexive(a[0]); }
    LexLeAntisymmetric(a[0], b[0]);
  }

  /** `listdir`: `None` when reading the directory fails (the error is
      propagated), otherwise the names read, as a sorted permutation. */
  function ListDir(read: Option<seq<string>>): (r: Option<seq<string>>)
    ensures r.None? <==> read.None?
    ensures r.Some? ==> Sorted(r.value) && multiset(r.value) == multiset(read.value)
  {
    match read
    case None => None
    case Some(entries) => Some(SortNames(entries))
  }

  /** Any two reads of the same directory contents list in the same order. */
  lemma ListDirDeterministic(a: seq<string>, b: seq<string>)
    requires multiset(a) == multiset(b)
    ensures ListDir(Some(a)) == ListDir(Some(b))
  {
    SortedUnique(SortNames(a), SortNames(b));
  }
}
