/** Orders and sorting. File names compare as `OsStr` does (character by
    character, a proper prefix first) and paths compare component by
    component as `PathBuf` does; both are instances of one lexicographic
    order. The library sorts the source calls (`Vec::sort`,
    `slice::sort_by_key`) are stable, and are modelled by a stable
    insertion sort. */
module Order {

  /** `lt` is irreflexive, transitive and relates any two distinct values. */
  ghost predicate StrictTotalOrder<T(!new)>(lt: (T, T) -> bool) {
    && (forall a :: !lt(a, a))
    && (forall a, b, c :: lt(a, b) && lt(b, c) ==> lt(a, c))
    && (forall a, b :: a != b ==> lt(a, b) || lt(b, a))
  }

  /** `le` is total and transitive (equal keys may belong to different values). */
  ghost predicate TotalPreorder<T(!new)>(le: (T, T) -> bool) {
    && (forall a, b :: le(a, b) || le(b, a))
    && (forall a, b, c :: le(a, b) && le(b, c) ==> le(a, c))
  }

  ghost predicate Antisymmetric<T(!new)>(le: (T, T) -> bool) {
    forall a, b :: le(a, b) && le(b, a) ==> a == b
  }

  /** Lexicographic order on sequences: the first differing element decides,
      and a proper prefix comes first. */
  predicate LexLt<T(==)>(a: seq<T>, b: seq<T>, lt: (T, T) -> bool) {
    if a == [] then b != []
    else if b == [] then false
    else if a[0] != b[0] then lt(a[0], b[0])
    else LexLt(a[1..], b[1..], lt)
  }

  lemma {:induction false} LexIrreflexive<T(!new)>(a: seq<T>, lt: (T, T) -> bool)
    requires StrictTotalOrder(lt)
    ensures !LexLt(a, a, lt)
  {
    if a != [] {
      LexIrreflexive(a[1..], lt);
    }
  }

  lemma {:induction false} LexTransitive<T(!new)>(a: seq<T>, b: seq<T>, c: seq<T>, lt: (T, T) -> bool)
    requires StrictTotalOrder(lt)
    requires LexLt(a, b, lt) && LexLt(b, c, lt)
    ensures LexLt(a, c, lt)
  {
    if a != [] && b != [] && c != [] && a[0] == b[0] && b[0] == c[0] {
      LexTransitive(a[1..], b[1..], c[1..], lt);
    }
  }

  lemma {:induction false} LexTrichotomy<T(!new)>(a: seq<T>, b: seq<T>, lt: (T, T) -> bool)
    requires StrictTotalOrder(lt)
    ensures a == b || LexLt(a, b, lt) || LexLt(b, a, lt)
  {
    if a != [] && b != [] && a[0] == b[0] {
      LexTrichotomy(a[1..], b[1..], lt);
      if a[1..] == b[1..] {
        assert a == [a[0]] + a[1..] && b == [b[0]] + b[1..];
      }
    }
  }

  predicate CharLt(a: char, b: char) {
    a < b
  }

  /** Order of file names (`OsStr` compares the encoded bytes; UTF-8 byte
      order agrees with code point order). */
  predicate StrLt(a: string, b: string) {
    LexLt(a, b, CharLt)
  }

  predicate StrLe(a: string, b: string) {
    a == b || StrLt(a, b)
  }

  lemma StrLtStrictTotal()
    ensures StrictTotalOrder(StrLt)
  {
    assert StrictTotalOrder(CharLt);
    forall a: string ensures !StrLt(a, a) {
      LexIrreflexive(a, CharLt);
    }
    forall a: string, b: string, c: string | StrLt(a, b) && StrLt(b, c) ensures StrLt(a, c) {
      LexTransitive(a, b, c, CharLt);
    }
    forall a: string, b: string | a != b ensures StrLt(a, b) || StrLt(b, a) {
      LexTrichotomy(a, b, CharLt);
    }
  }

  /** A path as the sequence of its components. */
  type Path = seq<string>

  /** `Ord for PathBuf`: component-wise lexicographic comparison. */
  predicate PathLt(p: Path, q: Path) {
    LexLt(p, q, StrLt)
  }

  predicate PathLe(p: Path, q: Path) {
    p == q || PathLt(p, q)
  }

  /** `PathLe` is a total order. */
  lemma PathLeTotalOrder()
    ensures TotalPreorder(PathLe) && Antisymmetric(PathLe)
  {
    StrLtStrictTotal();
    forall p: Path, q: Path, r: Path | PathLe(p, q) && PathLe(q, r) ensures PathLe(p, r) {
      if p != q && q != r { LexTransitive(p, q, r, StrLt); }
    }
    forall p: Path, q: Path | PathLe(p, q) && PathLe(q, p) ensures p == q {
      if p != q {
        LexTransitive(p, q, p, StrLt);
        LexIrreflexive(p, StrLt);
      }
    }
    forall p: Path, q: Path ensures PathLe(p, q) || PathLe(q, p) {
      LexTrichotomy(p, q, StrLt);
    }
  }

  ghost predicate SortedBy<T>(s: seq<T>, le: (T, T) -> bool) {
    forall i, j :: 0 <= i < j < |s| ==> le(s[i], s[j])
  }

  /** Inserts `x` after every element that is not above it, which keeps the
      insertion sort stable. */
  function InsertBy<T>(x: T, s: seq<T>, le: (T, T) -> bool): (r: seq<T>)
    ensures multiset(r) == multiset(s) + multiset{x}
  {
    if s == [] then [x]
    else
      assert s == [s[0]] + s[1..];
      if le(s[0], x) then [s[0]] + InsertBy(x, s[1..], le) else [x] + s
  }

  /** A stable sort of `s` by `le`. */
  function SortBy<T>(s: seq<T>, le: (T, T) -> bool): (r: seq<T>)
    ensures multiset(r) == multiset(s)
  {
    if s == [] then []
    else
      assert s == s[..|s| - 1] + [s[|s| - 1]];
      InsertBy(s[|s| - 1], SortBy(s[..|s| - 1], le), le)
  }

  lemma {:induction false} InsertBySorted<T(!new)>(x: T, s: seq<T>, le: (T, T) -> bool)
    requires TotalPreorder(le) && SortedBy(s, le)
    ensures SortedBy(InsertBy(x, s, le), le)
  {
    if s != [] && le(s[0], x) {
      InsertBySorted(x, s[1..], le);
      var t := InsertBy(x, s[1..], le);
      assert forall k :: 0 <= k < |t| ==> le(s[0], t[k]) by {
        forall k | 0 <= k < |t| ensures le(s[0], t[k]) {
          assert t[k] in multiset(s[1..]) + multiset{x};
          if t[k] != x {
            assert t[k] in s[1..];
          }
        }
      }
    }
  }

  /** `SortBy` sorts. */
  lemma {:induction false} SortBySorted<T(!new)>(s: seq<T>, le: (T, T) -> bool)
    requires TotalPreorder(le)
    ensures SortedBy(SortBy(s, le), le)
  {
    if s != [] {
      SortBySorted(s[..|s| - 1], le);
      InsertBySorted(s[|s| - 1], SortBy(s[..|s| - 1], le), le);
    }
  }

  /** The head of a sorted sequence is below each of its elements. */
  lemma HeadIsLeast<T(!new)>(a: seq<T>, x: T, le: (T, T) -> bool)
    requires TotalPreorder(le) && SortedBy(a, le) && x in a
    ensures le(a[0], x)
  {
    var i :| 0 <= i < |a| && a[i] == x;
    if i == 0 {
      assert le(x, x) || le(x, x);
    }
  }

  /** Under an antisymmetric order there is exactly one sorted arrangement of
      a multiset, so the result of a sort does not depend on the input order. */
  lemma {:induction false} SortedUnique<T(!new)>(a: seq<T>, b: seq<T>, le: (T, T) -> bool)
    requires TotalPreorder(le) && Antisymmetric(le)
    requires SortedBy(a, le) && SortedBy(b, le) && multiset(a) == multiset(b)
    ensures a == b
  {
    if a != [] && b != [] {
      SameHead(a, b, le);
      TailMultiset(a);
      TailMultiset(b);
      SortedTail(a, le);
      SortedTail(b, le);
      SortedUnique(a[1..], b[1..], le);
      assert a == [a[0]] + a[1..] && b == [b[0]] + b[1..];
    } else {
      assert |multiset(a)| == |a| && |multiset(b)| == |b|;
    }
  }

  /** Two sorted arrangements of one multiset start with the same element. */
  lemma SameHead<T(!new)>(a: seq<T>, b: seq<T>, le: (T, T) -> bool)
    requires TotalPreorder(le) && Antisymmetric(le)
    requires SortedBy(a, le) && SortedBy(b, le) && multiset(a) == multiset(b)
    requires a != [] && b != []
    ensures a[0] == b[0]
  {
    assert a[0] in multiset(b) && b[0] in multiset(a);
    HeadIsLeast(b, a[0], le);
    HeadIsLeast(a, b[0], le);
  }

  lemma TailMultiset<T>(a: seq<T>)
    requires a != []
    ensures multiset(a[1..]) == multiset(a) - multiset{a[0]}
  {
    assert a == [a[0]] + a[1..];
  }

  lemma SortedTail<T>(a: seq<T>, le: (T, T) -> bool)
    requires a != [] && SortedBy(a, le)
    ensures SortedBy(a[1..], le)
  {
  }

  /** The sort used for file paths (`Vec<PathBuf>::sort`). */
  function SortPaths(s: seq<Path>): (r: seq<Path>)
    ensures multiset(r) == multiset(s)
    ensures SortedBy(r, PathLe)
  {
    PathLeTotalOrder();
    SortBySorted(s, PathLe);
    SortBy(s, PathLe)
  }

  ghost predicate NoDuplicates<T>(s: seq<T>) {
    forall i, j :: 0 <= i < j < |s| ==> s[i] != s[j]
  }

  /** Rearranging a sequence without duplicates keeps it without duplicates. */
  lemma NoDuplicatesPermutation<T>(s: seq<T>, r: seq<T>)
    requires multiset(r) == multiset(s) && NoDuplicates(s)
    ensures NoDuplicates(r)
  {
    forall i, j | 0 <= i < j < |r| ensures r[i] != r[j] {
      if r[i] == r[j] {
        var x := r[i];
        assert r == r[..i] + [x] + r[i + 1..j] + [x] + r[j + 1..];
        assert multiset(r)[x] >= 2;
        MultiplicityAtMostOne(s, x);
      }
    }
  }

  lemma {:induction false} MultiplicityAtMostOne<T>(s: seq<T>, x: T)
    requires NoDuplicates(s)
    ensures multiset(s)[x] <= 1
  {
    if s != [] {
      assert s == [s[0]] + s[1..];
      MultiplicityAtMostOne(s[1..], x);
      if s[0] == x {
        assert x !in s[1..];
      }
    }
  }

  /** Strictly ascending: sorted and free of duplicates. */
  predicate StrictlyAscending(s: seq<Path>) {
    forall i, j :: 0 <= i < j < |s| ==> PathLt(s[i], s[j])
  }

  lemma SortedNoDuplicatesAscending(s: seq<Path>)
    requires SortedBy(s, PathLe) && NoDuplicates(s)
    ensures StrictlyAscending(s)
  {
  }
}
