/** The orderings the store's list queries use (`orderBy: { position: 'asc' }`
    and `orderBy: { text: 'asc' }`) and a sort that produces such a list from the
    set of matching rows. Rows with equal keys come out in an unspecified order,
    as they do from the store. */
module Ordering {
  import opened Common
  import opened Seqs

  /** Ascending string order, compared character by character. */
  predicate LexLe(a: string, b: string)
    decreases |a|
  {
    if a == [] then true
    else if b == [] then false
    else if a[0] != b[0] then a[0] < b[0]
    else LexLe(a[1..], b[1..])
  }

  lemma {:induction false} LexLeTotal(a: string, b: string)
    ensures LexLe(a, b) || LexLe(b, a)
    decreases |a|
  {
    if a != [] && b != [] && a[0] == b[0] {
      LexLeTotal(a[1..], b[1..]);
    }
  }

  lemma {:induction false} LexLeTransitive(a: string, b: string, c: string)
    requires LexLe(a, b) && LexLe(b, c)
    ensures LexLe(a, c)
    decreases |a|
  {
    if a != [] && b != [] && c != [] && a[0] == b[0] && b[0] == c[0] {
      LexLeTransitive(a[1..], b[1..], c[1..]);
    }
  }

  lemma {:induction false} LexLeAntisymmetric(a: string, b: string)
    requires LexLe(a, b) && LexLe(b, a)
    ensures a == b
    decreases |a|
  {
    if a != [] && b != [] {
      LexLeAntisymmetric(a[1..], b[1..]);
      assert a == [a[0]] + a[1..] && b == [b[0]] + b[1..];
    }
  }

  predicate SortedBy<T>(r: seq<T>, le: (T, T) -> bool)
  {
    forall i, j | 0 <= i < j < |r| :: le(r[i], r[j])
  }

  /** The element of a non-empty set that no other element precedes. */
  method Least<T>(s: set<T>, le: (T, T) -> bool) returns (m: T)
    requires s != {}
    requires forall x, y | x in s && y in s :: le(x, y) || le(y, x)
    requires forall x, y, z | x in s && y in s && z in s :: le(x, y) && le(y, z) ==> le(x, z)
    ensures m in s
    ensures forall y | y in s :: le(m, y)
  {
    m :| m in s;
    var todo := s - {m};
    while todo != {}
      invariant todo <= s && m in s && m !in todo
      invariant forall y | y in s && y !in todo :: le(m, y)
      decreases |todo|
    {
      var y :| y in todo;
      if !le(m, y) {
        m := y;
      }
      todo := todo - {y};
    }
  }

  /** The rows of `s`, each once, in ascending `le` order. */
  method SortSet<T>(s: set<T>, le: (T, T) -> bool) returns (r: seq<T>)
    requires forall x, y | x in s && y in s :: le(x, y) || le(y, x)
    requires forall x, y, z | x in s && y in s && z in s :: le(x, y) && le(y, z) ==> le(x, z)
    ensures |r| == |s| && Distinct(r)
    ensures forall i | 0 <= i < |r| :: r[i] in s
    ensures forall x | x in s :: x in r
    ensures SortedBy(r, le)
  {
    r := [];
    var rest := s;
    while rest != {}
      invariant rest <= s
      invariant forall i | 0 <= i < |r| :: r[i] in s && r[i] !in rest
      invariant forall x | x in s :: x in rest || x in r
      invariant Distinct(r)
      invariant |r| + |rest| == |s|
      invariant SortedBy(r, le)
      invariant forall i, y | 0 <= i < |r| && y in rest :: le(r[i], y)
      decreases |rest|
    {
      var m := Least(rest, le);
      r := r + [m];
      rest := rest - {m};
    }
  }

  /** The members of `s`, each once, in an order the caller does not choose
      (a relation read without `orderBy`). */
  method Enumerate<T>(s: set<T>) returns (r: seq<T>)
    ensures |r| == |s| && Distinct(r)
    ensures forall i | 0 <= i < |r| :: r[i] in s
    ensures forall x | x in s :: x in r
  {
    r := [];
    var rest := s;
    while rest != {}
      invariant rest <= s
      invariant forall i | 0 <= i < |r| :: r[i] in s && r[i] !in rest
      invariant forall x | x in s :: x in rest || x in r
      invariant Distinct(r)
      invariant |r| + |rest| == |s|
      decreases |rest|
    {
      var x :| x in rest;
      r := r + [x];
      rest := rest - {x};
    }
  }

  function ByPosition<T>(pos: T -> int): (le: (T, T) -> bool)
  {
    (a: T, b: T) => pos(a) <= pos(b)
  }

  function TaskPosition(t: Task): int { t.position }

  function TextLe(a: Task, b: Task): bool { LexLe(a.text, b.text) }

  /** `orderBy: { position: 'asc' }` over the rows of `s`. */
  method SortByPosition<T>(s: set<T>, pos: T -> int) returns (r: seq<T>)
    ensures |r| == |s| && Distinct(r)
    ensures forall i | 0 <= i < |r| :: r[i] in s
    ensures forall x | x in s :: x in r
    ensures forall i, j | 0 <= i < j < |r| :: pos(r[i]) <= pos(r[j])
  {
    r := SortSet(s, ByPosition(pos));
  }

  /** `orderBy: { text: 'asc' }` over the task rows of `s`. */
  method SortByText(s: set<Task>) returns (r: seq<Task>)
    ensures |r| == |s| && Distinct(r)
    ensures forall i | 0 <= i < |r| :: r[i] in s
    ensures forall x | x in s :: x in r
    ensures forall i, j | 0 <= i < j < |r| :: LexLe(r[i].text, r[j].text)
  {
    forall x, y | x in s && y in s ensures TextLe(x, y) || TextLe(y, x) {
      LexLeTotal(x.text, y.text);
    }
    forall x, y, z | x in s && y in s && z in s && TextLe(x, y) && TextLe(y, z) ensures TextLe(x, z) {
      LexLeTransitive(x.text, y.text, z.text);
    }
    r := SortSet(s, TextLe);
  }
}
