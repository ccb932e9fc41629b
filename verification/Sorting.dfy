/** `sorted`: a stable sort by an order, and the order of strings by code point. */
module Sorting {
  import opened Collections

  /** Any two values compare, and comparison is transitive. */
  ghost predicate IsOrder<T(!new)>(le: (T, T) -> bool) {
    && (forall x, y :: le(x, y) || le(y, x))
    && (forall x, y, z :: le(x, y) && le(y, z) ==> le(x, z))
  }

  /** No two different listed values tie. */
  ghost predicate NoTies<T(!new)>(le: (T, T) -> bool, xs: seq<T>) {
    forall x, y :: x in xs && y in xs && le(x, y) && le(y, x) ==> x == y
  }

  predicate SortedBy<T>(le: (T, T) -> bool, xs: seq<T>) {
    forall i, j :: 0 <= i < j < |xs| ==> le(xs[i], xs[j])
  }

  function Insert<T>(le: (T, T) -> bool, x: T, xs: seq<T>): seq<T> {
    if xs == [] || le(x, xs[0]) then [x] + xs else [xs[0]] + Insert(le, x, xs[1..])
  }

  function Sort<T>(le: (T, T) -> bool, xs: seq<T>): seq<T> {
    if xs == [] then [] else Insert(le, xs[0], Sort(le, xs[1..]))
  }

  lemma {:induction false} InsertPermutes<T>(le: (T, T) -> bool, x: T, xs: seq<T>)
    ensures multiset(Insert(le, x, xs)) == multiset{x} + multiset(xs)
  {
    if !(xs == [] || le(x, xs[0])) {
      InsertPermutes(le, x, xs[1..]);
      assert xs == [xs[0]] + xs[1..];
    }
  }

  lemma {:induction false} InsertSorts<T(!new)>(le: (T, T) -> bool, x: T, xs: seq<T>)
    requires IsOrder(le) && SortedBy(le, xs)
    ensures SortedBy(le, Insert(le, x, xs))
  {
    if !(xs == [] || le(x, xs[0])) {
      InsertSorts(le, x, xs[1..]);
      InsertPermutes(le, x, xs[1..]);
      var rest := Insert(le, x, xs[1..]);
      forall j | 0 <= j < |rest| ensures le(xs[0], rest[j]) {
        assert rest[j] in multiset(rest);
        assert rest[j] == x || rest[j] in xs[1..];
      }
    }
  }

  lemma {:induction false} SortPermutes<T>(le: (T, T) -> bool, xs: seq<T>)
    ensures multiset(Sort(le, xs)) == multiset(xs)
    ensures |Sort(le, xs)| == |xs|
    ensures forall x :: x in Sort(le, xs) <==> x in xs
  {
    if xs != [] {
      SortPermutes(le, xs[1..]);
      InsertPermutes(le, xs[0], Sort(le, xs[1..]));
      assert xs == [xs[0]] + xs[1..];
    }
    SameMultiset(Sort(le, xs), xs);
  }

  lemma SameMultiset<T>(xs: seq<T>, ys: seq<T>)
    requires multiset(xs) == multiset(ys)
    ensures |xs| == |ys|
    ensures forall x :: x in xs <==> x in ys
  {
    assert |multiset(xs)| == |xs| && |multiset(ys)| == |ys|;
    forall x ensures x in xs <==> x in ys {
      assert x in multiset(xs) <==> x in multiset(ys);
    }
  }

  lemma BagWithout<T>(xs: seq<T>, i: nat)
    requires i < |xs|
    ensures multiset(xs) == multiset(xs[..i] + xs[i + 1..]) + multiset{xs[i]}
  {
    var front, back := xs[..i], xs[i + 1..];
    assert xs == front + ([xs[i]] + back);
    assert multiset(front + back) == multiset(front) + multiset(back);
  }

  lemma CancelOne<T>(a: multiset<T>, b: multiset<T>, x: T)
    requires a + multiset{x} <= b + multiset{x}
    ensures a <= b
  {
    forall v
      ensures a[v] <= b[v]
    {
      assert (a + multiset{x})[v] <= (b + multiset{x})[v];
    }
  }

  lemma {:induction false} SortSorts<T(!new)>(le: (T, T) -> bool, xs: seq<T>)
    requires IsOrder(le)
    ensures SortedBy(le, Sort(le, xs))
  {
    if xs != [] {
      SortSorts(le, xs[1..]);
      InsertSorts(le, xs[0], Sort(le, xs[1..]));
    }
  }

  lemma TailBag<T>(xs: seq<T>, x: T)
    requires xs != [] && xs[0] == x
    ensures multiset(xs[1..]) == multiset(xs) - multiset{x}
  {
    assert xs == [x] + xs[1..];
  }

  lemma FirstIsUnique<T(!new)>(le: (T, T) -> bool, xs: seq<T>, ys: seq<T>)
    requires IsOrder(le) && NoTies(le, xs)
    requires SortedBy(le, xs) && SortedBy(le, ys) && xs != [] && ys != []
    requires xs[0] in ys && ys[0] in xs
    ensures xs[0] == ys[0]
  {
    var i :| 0 <= i < |ys| && ys[i] == xs[0];
    var j :| 0 <= j < |xs| && xs[j] == ys[0];
    assert le(xs[0], xs[j]) && le(ys[0], ys[i]);
  }

  /** Without ties there is only one sorted arrangement. */
  lemma {:induction false} SortedIsUnique<T(!new)>(le: (T, T) -> bool, xs: seq<T>, ys: seq<T>)
    requires IsOrder(le) && NoTies(le, xs)
    requires SortedBy(le, xs) && SortedBy(le, ys) && multiset(xs) == multiset(ys)
    ensures xs == ys
  {
    SameMultiset(xs, ys);
    if xs != [] {
      FirstIsUnique(le, xs, ys);
      TailBag(xs, xs[0]);
      TailBag(ys, xs[0]);
      hide IsOrder;
      SortedIsUnique(le, xs[1..], ys[1..]);
      assert xs == [xs[0]] + xs[1..] && ys == [ys[0]] + ys[1..];
    }
  }

  /** Sorting does not depend on the order the values came in. */
  lemma SortIgnoresOrder<T(!new)>(le: (T, T) -> bool, xs: seq<T>, ys: seq<T>)
    requires IsOrder(le) && NoTies(le, xs) && multiset(xs) == multiset(ys)
    ensures Sort(le, xs) == Sort(le, ys)
  {
    SortPermutes(le, xs);
    SortPermutes(le, ys);
    SortSorts(le, xs);
    SortSorts(le, ys);
    SortedIsUnique(le, Sort(le, xs), Sort(le, ys));
  }

  lemma CountsOnce<T>(xs: seq<T>, i: nat)
    requires Distinct(xs) && i < |xs|
    ensures multiset(xs)[xs[i]] == 1
  {
    BagWithout(xs, i);
    assert xs[i] !in xs[..i] + xs[i + 1..];
  }

  lemma CountsTwice<T>(xs: seq<T>, i: nat, j: nat)
    requires i < j < |xs| && xs[i] == xs[j]
    ensures multiset(xs)[xs[i]] >= 2
  {
    BagWithout(xs, j);
    assert (xs[..j] + xs[j + 1..])[i] == xs[i];
    assert xs[i] in multiset(xs[..j] + xs[j + 1..]);
  }

  /** Rearranging distinct values leaves them distinct. */
  lemma DistinctPermutes<T>(xs: seq<T>, ys: seq<T>)
    requires Distinct(xs) && multiset(xs) == multiset(ys)
    ensures Distinct(ys)
  {
    forall i, j | 0 <= i < j < |ys|
      ensures ys[i] != ys[j]
    {
      if ys[i] == ys[j] {
        CountsTwice(ys, i, j);
        assert ys[i] in multiset(xs);
        var k :| 0 <= k < |xs| && xs[k] == ys[i];
        CountsOnce(xs, k);
        assert false;
      }
    }
  }

  // ---------------------------------------------------------------- sorting related lists

  predicate AllRelated<T>(related: (T, T) -> bool, xs: seq<T>, ys: seq<T>) {
    |xs| == |ys| && forall k | 0 <= k < |xs| :: related(xs[k], ys[k])
  }

  /** The order does not tell related values apart. */
  ghost predicate Respects<T(!new)>(le: (T, T) -> bool, related: (T, T) -> bool) {
    forall a, b, x, y :: related(a, x) && related(b, y) ==> (le(a, b) <==> le(x, y))
  }

  lemma {:induction false} InsertRelates<T(!new)>(le: (T, T) -> bool, related: (T, T) -> bool, x: T, y: T,
                                                  xs: seq<T>, ys: seq<T>)
    requires Respects(le, related) && related(x, y) && AllRelated(related, xs, ys)
    ensures AllRelated(related, Insert(le, x, xs), Insert(le, y, ys))
  {
    if !(xs == [] || le(x, xs[0])) {
      InsertRelates(le, related, x, y, xs[1..], ys[1..]);
    }
  }

  /** Sorting two lists that are related place by place leaves them so. */
  lemma {:induction false} SortRelates<T(!new)>(le: (T, T) -> bool, related: (T, T) -> bool, xs: seq<T>, ys: seq<T>)
    requires Respects(le, related) && AllRelated(related, xs, ys)
    ensures AllRelated(related, Sort(le, xs), Sort(le, ys))
  {
    if xs != [] {
      SortRelates(le, related, xs[1..], ys[1..]);
      InsertRelates(le, related, xs[0], ys[0], Sort(le, xs[1..]), Sort(le, ys[1..]));
    }
  }

  // ---------------------------------------------------------------- mapping

  function Map<T, U>(f: T -> U, xs: seq<T>): (ys: seq<U>)
    ensures |ys| == |xs|
    ensures forall k | 0 <= k < |xs| :: ys[k] == f(xs[k])
  {
    seq(|xs|, k requires 0 <= k < |xs| => f(xs[k]))
  }

  /** The first of xs, found in ys and taken out of both. */
  lemma TakeOut<T>(xs: seq<T>, ys: seq<T>) returns (j: nat)
    requires xs != [] && multiset(xs) == multiset(ys)
    ensures j < |ys| && ys[j] == xs[0] && multiset(xs[..0] + xs[1..]) == multiset(ys[..j] + ys[j + 1..])
  {
    SameMultiset(xs, ys);
    var x := xs[0];
    assert x in ys;
    j :| 0 <= j < |ys| && ys[j] == x;
    BagWithout(xs, 0);
    BagWithout(ys, j);
    var rest, other := multiset(xs[..0] + xs[1..]), multiset(ys[..j] + ys[j + 1..]);
    CancelOne(rest, other, x);
    CancelOne(other, rest, x);
  }

  lemma MapWithout<T, U>(f: T -> U, xs: seq<T>, i: nat)
    requires i < |xs|
    ensures multiset(Map(f, xs)) == multiset(Map(f, xs[..i] + xs[i + 1..])) + multiset{f(xs[i])}
  {
    var ys := Map(f, xs);
    assert Map(f, xs[..i] + xs[i + 1..]) == ys[..i] + ys[i + 1..];
    BagWithout(ys, i);
  }

  lemma {:induction false} MapPermutes<T, U>(f: T -> U, xs: seq<T>, ys: seq<T>)
    requires multiset(xs) == multiset(ys)
    ensures multiset(Map(f, xs)) == multiset(Map(f, ys))
    decreases |xs|
  {
    hide Map;
    if xs == [] {
      SameMultiset(xs, ys);
      assert xs == ys;
    } else {
      var j := TakeOut(xs, ys);
      MapWithout(f, xs, 0);
      MapWithout(f, ys, j);
      MapPermutes(f, xs[..0] + xs[1..], ys[..j] + ys[j + 1..]);
    }
  }

  // ---------------------------------------------------------------- strings

  predicate StringLe(a: string, b: string) {
    if a == "" then true
    else if b == "" then false
    else if a[0] != b[0] then a[0] < b[0]
    else StringLe(a[1..], b[1..])
  }

  lemma {:induction false} StringLeTotal(a: string, b: string)
    ensures StringLe(a, b) || StringLe(b, a)
    ensures StringLe(a, b) && StringLe(b, a) ==> a == b
  {
    if a != "" && b != "" && a[0] == b[0] {
      StringLeTotal(a[1..], b[1..]);
      assert a == [a[0]] + a[1..] && b == [b[0]] + b[1..];
    }
  }

  lemma {:induction false} StringLeTransitive(a: string, b: string, c: string)
    requires StringLe(a, b) && StringLe(b, c)
    ensures StringLe(a, c)
  {
    if a != "" && b != "" && c != "" && a[0] == b[0] == c[0] {
      StringLeTransitive(a[1..], b[1..], c[1..]);
    }
  }

  lemma StringsDoNotTie(xs: seq<string>)
    ensures NoTies(StringLe, xs)
  {
    forall x, y | x in xs && y in xs && StringLe(x, y) && StringLe(y, x)
      ensures x == y
    {
      StringLeTotal(x, y);
    }
  }

  lemma StringOrder()
    ensures IsOrder(StringLe)
  {
    forall a, b ensures StringLe(a, b) || StringLe(b, a) {
      StringLeTotal(a, b);
    }
    forall a, b, c | StringLe(a, b) && StringLe(b, c) ensures StringLe(a, c) {
      StringLeTransitive(a, b, c);
    }
  }

  /** The first place where the strings differ is k, and a has the smaller character there. */
  predicate SmallerAt(a: string, b: string, k: nat) {
    k < |a| && k < |b| && a[..k] == b[..k] && a[k] < b[k]
  }

  /** Code points decide at the first place where the strings differ; otherwise the shorter is the smaller. */
  lemma {:induction false} StringLeMeans(a: string, b: string)
    ensures StringLe(a, b) <==> a <= b || exists k: nat :: SmallerAt(a, b, k)
  {
    if a != "" && b != "" && a[0] == b[0] {
      var x, y := a[1..], b[1..];
      StringLeMeans(x, y);
      if k: nat :| SmallerAt(a, b, k) {
        assert k > 0 && a[1..k] == x[..k - 1] && b[1..k] == y[..k - 1];
        assert SmallerAt(x, y, k - 1);
      }
      if k: nat :| SmallerAt(x, y, k) {
        assert a[..k + 1] == [a[0]] + x[..k] && b[..k + 1] == [b[0]] + y[..k];
        assert SmallerAt(a, b, k + 1);
      }
      if a <= b {
        assert x == b[1..|a|] == y[..|x|];
      }
      if x <= y {
        assert a == [a[0]] + x && b[..|a|] == [b[0]] + y[..|x|];
      }
    } else if a != "" && b != "" {
      if a[0] < b[0] {
        assert SmallerAt(a, b, 0);
      }
      forall k: nat | 0 < k
        ensures !SmallerAt(a, b, k)
      {
        if k < |a| && k < |b| {
          assert a[..k][0] == a[0] && b[..k][0] == b[0];
        }
      }
    }
  }

  // ---------------------------------------------------------------- reason codes: sorted(set(codes))

  function InsertCode(code: string, codes: seq<string>): seq<string> {
    if codes == [] then [code]
    else if codes[0] == code then codes
    else if StringLe(code, codes[0]) then [code] + codes
    else [codes[0]] + InsertCode(code, codes[1..])
  }

  function Canonical(codes: seq<string>): seq<string> {
    if codes == [] then [] else InsertCode(codes[0], Canonical(codes[1..]))
  }

  /** Ascending, nothing twice. */
  predicate IsCanonical(codes: seq<string>) {
    forall i, j :: 0 <= i < j < |codes| ==> StringLe(codes[i], codes[j]) && codes[i] != codes[j]
  }

  lemma {:induction false} InsertCodeKeeps(code: string, codes: seq<string>)
    requires IsCanonical(codes)
    ensures IsCanonical(InsertCode(code, codes))
    ensures forall c :: c in InsertCode(code, codes) <==> c == code || c in codes
  {
    hide StringLe;
    if codes != [] && codes[0] != code {
      StringLeTotal(code, codes[0]);
      assert codes == [codes[0]] + codes[1..];
      if StringLe(code, codes[0]) {
        forall j | 0 < j < |codes|
          ensures StringLe(code, codes[j]) && code != codes[j]
        {
          StringLeTransitive(code, codes[0], codes[j]);
          StringLeTotal(code, codes[0]);
        }
        assert forall c | c in codes :: StringLe(code, c) && code != c;
        CodeInFront(code, codes);
      } else {
        InsertCodeKeeps(code, codes[1..]);
        CodeInFront(codes[0], InsertCode(code, codes[1..]));
      }
    }
  }

  lemma CodeInFront(code: string, codes: seq<string>)
    requires IsCanonical(codes) && forall c :: c in codes ==> StringLe(code, c) && code != c
    ensures IsCanonical([code] + codes)
  {
    hide StringLe;
    var all := [code] + codes;
    forall i, j | 0 <= i < j < |all|
      ensures StringLe(all[i], all[j]) && all[i] != all[j]
    {
      assert all[j] == codes[j - 1];
      assert i > 0 ==> all[i] == codes[i - 1];
    }
  }

  lemma {:induction false} CanonicalIs(codes: seq<string>)
    ensures IsCanonical(Canonical(codes))
    ensures forall c :: c in Canonical(codes) <==> c in codes
  {
    if codes != [] {
      CanonicalIs(codes[1..]);
      InsertCodeKeeps(codes[0], Canonical(codes[1..]));
      assert codes == [codes[0]] + codes[1..];
    }
  }

  /** A canonical list is determined by what it contains, so canonicalising again changes nothing. */
  lemma {:induction false} CanonicalUnique(xs: seq<string>, ys: seq<string>)
    requires IsCanonical(xs) && IsCanonical(ys) && forall c :: c in xs <==> c in ys
    ensures xs == ys
  {
    hide StringLe;
    assert xs != [] ==> xs[0] in ys;
    assert ys != [] ==> ys[0] in xs;
    if xs != [] {
      var x, y := xs[0], ys[0];
      assert x in xs && y in ys;
      StringLeTotal(x, y);
      FirstIsLeast(xs, y);
      FirstIsLeast(ys, x);
      assert xs == [x] + xs[1..] && ys == [y] + ys[1..];
      forall c ensures c in xs[1..] <==> c in ys[1..] {
        assert c in xs <==> c in ys;
      }
      CanonicalUnique(xs[1..], ys[1..]);
    }
  }

  lemma FirstIsLeast(codes: seq<string>, c: string)
    requires IsCanonical(codes) && c in codes
    ensures codes[0] == c || StringLe(codes[0], c)
  {}

  lemma CanonicalFixed(codes: seq<string>)
    ensures Canonical(codes) == codes <==> IsCanonical(codes)
    ensures Canonical(Canonical(codes)) == Canonical(codes)
  {
    CanonicalIs(codes);
    CanonicalIs(Canonical(codes));
    CanonicalUnique(Canonical(Canonical(codes)), Canonical(codes));
    if IsCanonical(codes) {
      CanonicalUnique(Canonical(codes), codes);
    }
  }
}
