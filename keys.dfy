/**
 * The key translator used by List: how one flat blob name becomes a key of the
 * hierarchical key space, how the keys of a listing accumulate, and the byte-wise
 * string order the listing is sorted by.
 */
module Keys {

  /** The path delimiter of the hierarchical key space. */
  const Delimiter: char := '/'

  predicate HasPrefix(s: string, prefix: string) {
    |prefix| <= |s| && s[..|prefix|] == prefix
  }

  /** `strings.TrimPrefix`: drops `prefix` when `s` starts with it, and leaves `s` alone otherwise. */
  function TrimPrefix(s: string, prefix: string): (r: string)
    ensures HasPrefix(s, prefix) ==> prefix + r == s
    ensures !HasPrefix(s, prefix) ==> r == s
  {
    if HasPrefix(s, prefix) then s[|prefix|..] else s
  }

  /** `strings.Index(s, "/")`: the position of the first delimiter, or -1 when there is none. */
  function IndexOfDelimiter(s: string): (i: int)
    ensures i == -1 <==> Delimiter !in s
    ensures i != -1 ==> 0 <= i < |s| && s[i] == Delimiter && Delimiter !in s[..i]
  {
    if s == [] then -1
    else if s[0] == Delimiter then 0
    else
      var j := IndexOfDelimiter(s[1..]);
      assert j != -1 ==> s[..j + 1] == [s[0]] + s[1..][..j];
      if j == -1 then -1 else j + 1
  }

  /** A file key: no delimiter at all. */
  predicate IsLeaf(k: string) {
    Delimiter !in k
  }

  /** A directory key: ends with the delimiter, and that is its only delimiter. */
  predicate IsDir(k: string) {
    |k| > 0 && k[|k| - 1] == Delimiter && Delimiter !in k[..|k| - 1]
  }

  /**
   * The key List reports for blob `name` under `prefix`: the name with the prefix
   * stripped when that has no delimiter, and otherwise the stripped name cut just after
   * its first delimiter.
   */
  function ListEntry(prefix: string, name: string): (r: string)
    ensures IsLeaf(TrimPrefix(name, prefix)) ==> r == TrimPrefix(name, prefix)
    ensures !IsLeaf(TrimPrefix(name, prefix)) ==> IsDir(r) && HasPrefix(TrimPrefix(name, prefix), r)
    ensures IsLeaf(r) || IsDir(r)
  {
    var key := TrimPrefix(name, prefix);
    var i := IndexOfDelimiter(key);
    if i == -1 then key
    else
      assert key[..i + 1][..i] == key[..i];
      key[..i + 1]
  }

  /** Every element of `s` differs from every other. */
  predicate Distinct(s: seq<string>) {
    forall i, j :: 0 <= i < j < |s| ==> s[i] != s[j]
  }

  /**
   * `strutil.AppendIfMissing`: the keys so far stay in place, and `x` is added at the
   * end exactly when it is not among them.
   */
  function AppendIfMissing(s: seq<string>, x: string): (r: seq<string>)
    ensures |r| == if x in s then |s| else |s| + 1
    ensures r[..|s|] == s
    ensures forall y :: y in r <==> y in s || y == x
  {
    if x in s then s else s + [x]
  }

  /**
   * One iteration of List's inner loop: a leaf entry is appended, and a directory entry
   * is added when it is missing. The keys so far stay in place, and the key added, if
   * any, is the name's entry, repeated as it is when the leaf was already there.
   */
  function Step(prefix: string, keys: seq<string>, name: string): (r: seq<string>)
    ensures |r| == if IsLeaf(ListEntry(prefix, name)) || ListEntry(prefix, name) !in keys then |keys| + 1 else |keys|
    ensures r[..|keys|] == keys
    ensures |r| > |keys| ==> r[|keys|] == ListEntry(prefix, name)
    ensures forall x :: x in r <==> x in keys || x == ListEntry(prefix, name)
  {
    var e := ListEntry(prefix, name);
    if IsLeaf(e) then keys + [e] else AppendIfMissing(keys, e)
  }

  /** The keys List has accumulated, before sorting, after going through `names` in order. */
  function Collect(prefix: string, names: seq<string>): (r: seq<string>)
    ensures |r| <= |names|
    decreases |names|
  {
    if names == [] then []
    else Step(prefix, Collect(prefix, names[..|names| - 1]), names[|names| - 1])
  }

  /** Going one name further along a listing is one more `Step`. */
  lemma CollectNext(prefix: string, names: seq<string>, k: nat)
    requires k < |names|
    ensures Collect(prefix, names[..k + 1]) == Step(prefix, Collect(prefix, names[..k]), names[k])
  {
    assert names[..k + 1][..k] == names[..k];
  }

  /** `Collect` of the first `k` names of a listing, counted by position rather than by slicing. */
  function CollectTo(prefix: string, names: seq<string>, k: nat): seq<string>
    requires k <= |names|
    decreases k, 0
  {
    if k == 0 then [] else StepAt(prefix, names, k - 1)
  }

  /** The step of that fold at position `i`: the keys of the names before `i`, advanced by the name at `i`. */
  function StepAt(prefix: string, names: seq<string>, i: nat): seq<string>
    requires i < |names|
    decreases i, 1
  {
    Step(prefix, CollectTo(prefix, names, i), names[i])
  }

  /** Going one name further by position is one more `Step`. */
  lemma CollectToNext(prefix: string, names: seq<string>, k: nat)
    requires k < |names|
    ensures CollectTo(prefix, names, k + 1) == Step(prefix, CollectTo(prefix, names, k), names[k])
  {
    assert CollectTo(prefix, names, k + 1) == StepAt(prefix, names, k);
  }

  /** Folding the first `k` names by position is folding the slice of the first `k` names. */
  lemma {:induction false} CollectToSlice(prefix: string, names: seq<string>, k: nat)
    requires k <= |names|
    ensures CollectTo(prefix, names, k) == Collect(prefix, names[..k])
  {
    if k > 0 {
      CollectToSlice(prefix, names, k - 1);
      CollectNext(prefix, names, k - 1);
      CollectToNext(prefix, names, k - 1);
    }
  }

  /** The reference definition of what a listing reports: the list entry of every name. */
  function Entries(prefix: string, names: seq<string>): set<string> {
    set n | n in names :: ListEntry(prefix, n)
  }

  /** The accumulated keys are exactly the list entries of the names seen. */
  lemma {:induction false} CollectMembers(prefix: string, names: seq<string>)
    ensures forall x :: x in Collect(prefix, names) <==> x in Entries(prefix, names)
  {
    if names != [] {
      var init, last := names[..|names| - 1], names[|names| - 1];
      CollectMembers(prefix, init);
      assert names == init + [last];
      assert forall n :: n in names <==> n in init || n == last;
      assert Entries(prefix, names) == Entries(prefix, init) + {ListEntry(prefix, last)};
    }
  }

  /** A directory key is accumulated at most once, however many blobs lie under it. */
  lemma {:induction false} CollectDirsOnce(prefix: string, names: seq<string>)
    ensures forall x :: IsDir(x) ==> multiset(Collect(prefix, names))[x] <= 1
  {
    if names != [] {
      var init := names[..|names| - 1];
      CollectDirsOnce(prefix, init);
      var c := Collect(prefix, init);
      var e := ListEntry(prefix, names[|names| - 1]);
      if IsLeaf(e) {
        assert multiset(c + [e]) == multiset(c) + multiset{e};
        assert forall x :: IsDir(x) ==> x != e;
      } else {
        assert forall x :: x in c ==> x in multiset(c);
        assert e !in c ==> multiset(c)[e] == 0;
      }
    }
  }

  /** Two names under the prefix whose list entry is the same leaf are the same name. */
  lemma LeafEntryInjective(prefix: string, n: string, m: string)
    requires HasPrefix(n, prefix) && HasPrefix(m, prefix)
    requires IsLeaf(ListEntry(prefix, n)) && ListEntry(prefix, n) == ListEntry(prefix, m)
    ensures n == m
  {
    assert prefix + TrimPrefix(n, prefix) == n;
    assert prefix + TrimPrefix(m, prefix) == m;
  }

  lemma AppendDistinct(s: seq<string>, x: string)
    requires Distinct(s) && x !in s
    ensures Distinct(s + [x])
  {
    forall i, j | 0 <= i < j < |s + [x]| ensures (s + [x])[i] != (s + [x])[j] {
      assert (s + [x])[i] == s[i];
      if j < |s| { assert (s + [x])[j] == s[j]; }
    }
  }

  /** Distinct names under the prefix give distinct keys: leaves are the stripped names and directories are deduplicated. */
  lemma {:induction false} CollectDistinct(prefix: string, names: seq<string>)
    requires Distinct(names)
    requires forall n :: n in names ==> HasPrefix(n, prefix)
    ensures Distinct(Collect(prefix, names))
  {
    if names != [] {
      var init, last := names[..|names| - 1], names[|names| - 1];
      assert Distinct(init) by {
        forall i, j | 0 <= i < j < |init| ensures init[i] != init[j] {
          assert init[i] == names[i] && init[j] == names[j];
        }
      }
      assert forall n :: n in init ==> n in names;
      CollectDistinct(prefix, init);
      var c := Collect(prefix, init);
      var e := ListEntry(prefix, last);
      if IsLeaf(e) {
        CollectMembers(prefix, init);
        forall n | n in init ensures ListEntry(prefix, n) != e {
          var k :| 0 <= k < |init| && init[k] == n;
          assert names[k] == n && names[|names| - 1] == last;
          if ListEntry(prefix, n) == e {
            LeafEntryInjective(prefix, last, n);
          }
        }
        AppendDistinct(c, e);
      } else if e !in c {
        AppendDistinct(c, e);
      }
    }
  }

  // ---- The order Go's sort.Strings uses ----

  /**
   * Lexicographic order. Go compares strings byte by byte in UTF-8, which orders them
   * exactly as comparing their code points one by one.
   */
  predicate Less(a: string, b: string)
    decreases |a|
  {
    |b| > 0 && (|a| == 0 || a[0] < b[0] || (a[0] == b[0] && Less(a[1..], b[1..])))
  }

  lemma {:induction false} LessIrreflexive(a: string)
    ensures !Less(a, a)
    decreases |a|
  {
    if |a| > 0 { LessIrreflexive(a[1..]); }
  }

  lemma {:induction false} LessTransitive(a: string, b: string, c: string)
    requires Less(a, b) && Less(b, c)
    ensures Less(a, c)
    decreases |a|
  {
    if |a| > 0 && a[0] == b[0] && b[0] == c[0] {
      LessTransitive(a[1..], b[1..], c[1..]);
    }
  }

  lemma {:induction false} LessTotal(a: string, b: string)
    requires a != b
    ensures Less(a, b) || Less(b, a)
    decreases |a|
  {
    if |a| > 0 && |b| > 0 && a[0] == b[0] {
      assert a == [a[0]] + a[1..] && b == [b[0]] + b[1..];
      LessTotal(a[1..], b[1..]);
    }
  }

  /** The order "not greater than" is transitive: a <= b and b <= c give a <= c. */
  lemma NotLessTransitive(a: string, b: string, c: string)
    requires !Less(b, a) && !Less(c, b)
    ensures !Less(c, a)
  {
    if a != b && b != c {
      LessTotal(a, b);
      LessTotal(b, c);
      LessTransitive(a, b, c);
      LessAsymmetric(a, c);
    }
  }

  lemma {:induction false} LessAsymmetric(a: string, b: string)
    requires Less(a, b)
    ensures !Less(b, a)
  {
    if Less(b, a) {
      LessTransitive(a, b, a);
      LessIrreflexive(a);
    }
  }

  /** Ascending in the order above: no element is greater than one after it. */
  predicate Sorted(s: seq<string>) {
    forall i, j :: 0 <= i < j < |s| ==> !Less(s[j], s[i])
  }

  predicate StrictlySorted(s: seq<string>) {
    forall i, j :: 0 <= i < j < |s| ==> Less(s[i], s[j])
  }

  /** Inserts `x` before the first element it does not exceed. */
  function Insert(x: string, s: seq<string>): (r: seq<string>)
    ensures multiset(r) == multiset{x} + multiset(s)
  {
    if s == [] then [x]
    else if !Less(s[0], x) then [x] + s
    else
      var t := Insert(x, s[1..]);
      assert s == [s[0]] + s[1..];
      [s[0]] + t
  }

  /** Insertion sort; the result is the unique ascending permutation of `s`. */
  function SortKeys(s: seq<string>): (r: seq<string>)
    ensures multiset(r) == multiset(s)
  {
    if s == [] then []
    else
      assert s == [s[0]] + s[1..];
      Insert(s[0], SortKeys(s[1..]))
  }

  lemma {:induction false} InsertSorted(x: string, s: seq<string>)
    requires Sorted(s)
    ensures Sorted(Insert(x, s))
  {
    if s != [] && !Less(s[0], x) {
      forall k | 0 <= k < |s| ensures !Less(s[k], x) {
        if k > 0 { NotLessTransitive(x, s[0], s[k]); }
      }
      assert forall j :: 0 < j < |[x] + s| ==> ([x] + s)[j] == s[j - 1];
    } else if s != [] {
      InsertSorted(x, s[1..]);
      var t := Insert(x, s[1..]);
      forall y | y in t ensures !Less(y, s[0]) {
        assert y in multiset(t);
        if y == x {
          LessAsymmetric(s[0], x);
        } else {
          assert y in s[1..];
          var k :| 0 <= k < |s[1..]| && s[1..][k] == y;
          assert s[k + 1] == y;
        }
      }
      assert forall j :: 0 < j < |[s[0]] + t| ==> ([s[0]] + t)[j] in t;
    }
  }

  lemma {:induction false} SortKeysSorted(s: seq<string>)
    ensures Sorted(SortKeys(s))
  {
    if s != [] {
      SortKeysSorted(s[1..]);
      InsertSorted(s[0], SortKeys(s[1..]));
    }
  }

  lemma {:induction false} CountDistinct(s: seq<string>, x: string)
    requires Distinct(s)
    ensures multiset(s)[x] <= 1
  {
    if s != [] {
      assert s == [s[0]] + s[1..];
      assert Distinct(s[1..]) by {
        forall i, j | 0 <= i < j < |s[1..]| ensures s[1..][i] != s[1..][j] {
          assert s[1..][i] == s[i + 1] && s[1..][j] == s[j + 1];
        }
      }
      CountDistinct(s[1..], x);
      if x == s[0] {
        assert x !in s[1..];
      }
    }
  }

  lemma CountPair(t: seq<string>, i: int, j: int)
    requires 0 <= i < j < |t| && t[i] == t[j]
    ensures multiset(t)[t[i]] >= 2
  {
    assert t == t[..j] + [t[j]] + t[j + 1..];
    assert t[..j][i] == t[i];
    assert t[i] in multiset(t[..j]);
  }

  /** Distinctness is a property of the multiset, so any permutation keeps it. */
  lemma DistinctPermutation(s: seq<string>, t: seq<string>)
    requires multiset(s) == multiset(t) && Distinct(s)
    ensures Distinct(t)
  {
    forall i, j | 0 <= i < j < |t| ensures t[i] != t[j] {
      if t[i] == t[j] {
        CountPair(t, i, j);
        CountDistinct(s, t[i]);
      }
    }
  }

  lemma SortedDistinctIsStrict(s: seq<string>)
    requires Sorted(s) && Distinct(s)
    ensures StrictlySorted(s)
  {
    forall i, j | 0 <= i < j < |s| ensures Less(s[i], s[j]) {
      LessTotal(s[i], s[j]);
    }
  }

  lemma FirstIsMember(t: seq<string>)
    ensures t != [] ==> t[0] in t
  {
  }

  /** Two strictly ascending sequences with the same elements are the same sequence. */
  lemma {:induction false} StrictlySortedUnique(s: seq<string>, t: seq<string>)
    requires StrictlySorted(s) && StrictlySorted(t)
    requires forall x :: x in s <==> x in t
    ensures s == t
  {
    FirstIsMember(t);
    if s != [] {
      assert s[0] in t;
      assert t != [];
      var k :| 0 <= k < |t| && t[k] == s[0];
      assert t[0] in s;
      var m :| 0 <= m < |s| && s[m] == t[0];
      if k > 0 {
        if m > 0 {
          LessAsymmetric(s[0], s[m]);
        } else {
          LessIrreflexive(s[0]);
        }
        assert false;
      }
      assert s[0] == t[0];
      forall x ensures x in s[1..] <==> x in t[1..] {
        if x in s[1..] {
          var a :| 0 <= a < |s[1..]| && s[1..][a] == x;
          assert Less(s[0], s[a + 1]);
          LessIrreflexive(x);
          assert x in t;
          assert x != t[0];
          var b :| 0 <= b < |t| && t[b] == x;
          assert t[1..][b - 1] == x;
        }
        if x in t[1..] {
          var a :| 0 <= a < |t[1..]| && t[1..][a] == x;
          assert Less(t[0], t[a + 1]);
          LessIrreflexive(x);
          assert x in s;
          var b :| 0 <= b < |s| && s[b] == x;
          assert s[1..][b - 1] == x;
        }
      }
      StrictlySortedUnique(s[1..], t[1..]);
      assert s == [s[0]] + s[1..] && t == [t[0]] + t[1..];
    }
  }

  // ---- The listing ----

  /**
   * What a successful List returns for the blob names the remote enumerated, in their
   * order: the list entry of every name, sorted.
   */
  function ListKeys(prefix: string, names: seq<string>): (r: seq<string>)
    ensures Sorted(r)
    ensures forall x :: x in r <==> x in Entries(prefix, names)
  {
    var c := Collect(prefix, names);
    SortKeysSorted(c);
    CollectMembers(prefix, names);
    assert forall x :: x in SortKeys(c) <==> x in multiset(c);
    SortKeys(c)
  }

  /** Each key of the listing is a leaf or a directory, and no directory appears twice. */
  lemma ListKeysShape(prefix: string, names: seq<string>)
    ensures forall x :: x in ListKeys(prefix, names) ==> IsLeaf(x) || IsDir(x)
    ensures forall i, j :: 0 <= i < j < |ListKeys(prefix, names)| && ListKeys(prefix, names)[i] == ListKeys(prefix, names)[j]
              ==> IsLeaf(ListKeys(prefix, names)[i])
  {
    var c := Collect(prefix, names);
    var r := ListKeys(prefix, names);
    CollectDirsOnce(prefix, names);
    forall i, j | 0 <= i < j < |r| && r[i] == r[j] ensures IsLeaf(r[i]) {
      assert r[i] in r;
      var n :| n in names && ListEntry(prefix, n) == r[i];
      CountPair(r, i, j);
      assert multiset(r)[r[i]] == multiset(c)[r[i]];
    }
  }

  /** Distinct blob names under the prefix give a strictly ascending listing: sorted with no duplicates. */
  lemma ListKeysStrict(prefix: string, names: seq<string>)
    requires Distinct(names)
    requires forall n :: n in names ==> HasPrefix(n, prefix)
    ensures StrictlySorted(ListKeys(prefix, names))
  {
    var c := Collect(prefix, names);
    CollectDistinct(prefix, names);
    DistinctPermutation(c, SortKeys(c));
    SortKeysSorted(c);
    SortedDistinctIsStrict(SortKeys(c));
  }
}
