/** The element record of the dataset and the orderings the views put on lists of elements. */
module Elements {
  import opened Collections

  datatype Image = Image(url: string, attribution: Option<string>)

  /** One element of the dataset. `atomicMass` is the value `parseFloat` reads
      from the record (`None` when it yields NaN); the configuration strings
      are `None` when the record lacks them. */
  datatype Element = Element(
    name: string,
    symbol: string,
    number: int,
    atomicMass: Option<real>,
    category: string,
    phase: string,
    electronConfiguration: Option<string>,
    electronConfigurationSemantic: Option<string>,
    discoveredBy: Option<string>,
    summary: Option<string>,
    applications: Option<seq<string>>,
    image: Option<Image>)

  /** `Object.values(elementsData)`: the dataset is keyed by atomic number, and
      a JavaScript object lists integer keys in ascending order, so the listing
      is strictly increasing in `number`. */
  predicate Catalog(es: seq<Element>) {
    forall i, j :: 0 <= i < j < |es| ==> es[i].number < es[j].number
  }

  predicate SortedByNumber(es: seq<Element>) {
    forall i, j :: 0 <= i < j < |es| ==> es[i].number <= es[j].number
  }

  /** No two entries share an atomic number. */
  predicate DistinctNumbers(es: seq<Element>) {
    forall i, j :: 0 <= i < j < |es| ==> es[i].number != es[j].number
  }

  /** Every entry has a number of at least `n`. */
  predicate AllAtLeast(es: seq<Element>, n: int) {
    forall i :: 0 <= i < |es| ==> n <= es[i].number
  }

  /** No entry has atomic number `n`. */
  predicate NoneNumbered(es: seq<Element>, n: int) {
    forall i :: 0 <= i < |es| ==> es[i].number != n
  }

  /** Inserts `e` before the first entry whose number is not smaller. */
  function InsertByNumber(e: Element, es: seq<Element>): (r: seq<Element>)
    requires SortedByNumber(es)
    ensures SortedByNumber(r)
    ensures |r| == |es| + 1
    ensures forall n :: AllAtLeast(es, n) && n <= e.number ==> AllAtLeast(r, n)
    ensures forall n :: NoneNumbered(es, n) && n != e.number ==> NoneNumbered(r, n)
    ensures DistinctNumbers(es) && NoneNumbered(es, e.number) ==> DistinctNumbers(r)
    decreases |es|
  {
    if |es| == 0 || e.number <= es[0].number then
      SortedHeadIsLeast(es);
      ConsFacts(e, es);
      [e] + es
    else
      var tail := InsertByNumber(e, es[1..]);
      TailFacts(es);
      ConsFacts(es[0], tail);
      [es[0]] + tail
  }

  lemma SortedHeadIsLeast(es: seq<Element>)
    requires SortedByNumber(es)
    ensures |es| > 0 ==> AllAtLeast(es, es[0].number)
  {
  }

  /** What a sorted list's tail inherits from the list. */
  lemma TailFacts(es: seq<Element>)
    requires SortedByNumber(es) && |es| > 0
    ensures SortedByNumber(es[1..])
    ensures AllAtLeast(es[1..], es[0].number)
    ensures DistinctNumbers(es) ==> DistinctNumbers(es[1..]) && NoneNumbered(es[1..], es[0].number)
    ensures forall n :: NoneNumbered(es, n) ==> NoneNumbered(es[1..], n) && es[0].number != n
    ensures forall n :: AllAtLeast(es, n) ==> AllAtLeast(es[1..], n) && n <= es[0].number
  {
  }

  /** What putting `x` in front of `t` keeps. */
  lemma ConsFacts(x: Element, t: seq<Element>)
    ensures SortedByNumber(t) && AllAtLeast(t, x.number) ==> SortedByNumber([x] + t)
    ensures forall n :: AllAtLeast(t, n) && n <= x.number ==> AllAtLeast([x] + t, n)
    ensures forall n :: NoneNumbered(t, n) && n != x.number ==> NoneNumbered([x] + t, n)
    ensures DistinctNumbers(t) && NoneNumbered(t, x.number) ==> DistinctNumbers([x] + t)
  {
  }

  lemma {:induction false} InsertPermutes(e: Element, es: seq<Element>)
    requires SortedByNumber(es)
    ensures multiset(InsertByNumber(e, es)) == multiset(es) + multiset{e}
    decreases |es|
  {
    if |es| > 0 && e.number > es[0].number {
      InsertPermutes(e, es[1..]);
      assert es == [es[0]] + es[1..];
    }
  }

  /** `es.sort((a, b) => a.number - b.number)` (a stable sort on atomic number). */
  function SortByNumber(es: seq<Element>): (r: seq<Element>)
    ensures SortedByNumber(r)
    ensures |r| == |es|
    ensures forall n :: NoneNumbered(es, n) ==> NoneNumbered(r, n)
    ensures DistinctNumbers(es) ==> DistinctNumbers(r)
    decreases |es|
  {
    if |es| == 0 then []
    else
      var rest := SortByNumber(es[1..]);
      assert forall n :: NoneNumbered(es, n) ==> NoneNumbered(es[1..], n);
      assert DistinctNumbers(es) ==> NoneNumbered(es[1..], es[0].number);
      InsertByNumber(es[0], rest)
  }

  /** Sorting only reorders: the result is a permutation of the input. */
  lemma {:induction false} SortPermutes(es: seq<Element>)
    ensures multiset(SortByNumber(es)) == multiset(es)
    decreases |es|
  {
    if |es| > 0 {
      SortPermutes(es[1..]);
      InsertPermutes(es[0], SortByNumber(es[1..]));
      SortUnfold(es);
      HeadAndTail(es);
    }
  }

  lemma SortUnfold(es: seq<Element>)
    requires |es| > 0
    ensures SortByNumber(es) == InsertByNumber(es[0], SortByNumber(es[1..]))
  {
  }

  lemma HeadAndTail(es: seq<Element>)
    requires |es| > 0
    ensures multiset(es) == multiset(es[1..]) + multiset{es[0]}
  {
    assert es == [es[0]] + es[1..];
  }

  function NumbersOf(es: seq<Element>): set<int> {
    set x | x in es :: x.number
  }

  /** `es.find(e => e.number === n)`: the first entry with number `n`. */
  function FindByNumber(es: seq<Element>, n: int): (r: Option<Element>)
    ensures r.Some? ==> exists j :: 0 <= j < |es| && es[j] == r.value && r.value.number == n && NoneNumbered(es[..j], n)
    ensures r.None? <==> NoneNumbered(es, n)
    decreases |es|
  {
    if |es| == 0 then None
    else if es[0].number == n then
      assert es[..0] == [];
      Some(es[0])
    else
      var r := FindByNumber(es[1..], n);
      if r.Some? then
        var j :| 0 <= j < |es[1..]| && es[1..][j] == r.value && r.value.number == n && NoneNumbered(es[1..][..j], n);
        assert es[..j + 1] == [es[0]] + es[1..][..j];
        assert es[j + 1] == r.value;
        r
      else
        assert forall i :: 1 <= i < |es| ==> es[i] == es[1..][i - 1];
        r
  }

  /** Keeps the first entry for every atomic number not in `seen`, in
      first-occurrence order. */
  function DedupeFrom(es: seq<Element>, seen: set<int>): (r: seq<Element>)
    ensures DistinctNumbers(r)
    ensures forall x :: x in r ==> x in es && x.number !in seen
    ensures forall i :: 0 <= i < |es| && es[i].number !in seen ==> es[i].number in NumbersOf(r)
    decreases |es|
  {
    if |es| == 0 then []
    else if es[0].number in seen then DedupeFrom(es[1..], seen)
    else
      var rest := DedupeFrom(es[1..], seen + {es[0].number});
      assert es[0].number in NumbersOf([es[0]] + rest);
      [es[0]] + rest
  }

  /** Every entry `DedupeFrom` keeps is the one `find` returns for its number. */
  lemma {:induction false} DedupeFromKeepsFirst(es: seq<Element>, seen: set<int>)
    ensures forall x :: x in DedupeFrom(es, seen) ==> FindByNumber(es, x.number) == Some(x)
    decreases |es|
  {
    if |es| > 0 {
      DedupeFromKeepsFirst(es[1..], if es[0].number in seen then seen else seen + {es[0].number});
      forall x | x in DedupeFrom(es, seen) ensures FindByNumber(es, x.number) == Some(x) {
        if x.number != es[0].number {
          assert x in DedupeFrom(es[1..], if es[0].number in seen then seen else seen + {es[0].number});
        }
      }
    }
  }

  /** `Array.from(new Set(xs.map(e => e.number))).map(n => xs.find(e => e.number === n))`:
      the first entry for every atomic number, in first-occurrence order. */
  function DedupeByNumber(es: seq<Element>): (r: seq<Element>)
    ensures DistinctNumbers(r)
    ensures forall x :: x in r ==> x in es
    ensures NumbersOf(r) == NumbersOf(es)
    ensures forall x :: x in r ==> FindByNumber(es, x.number) == Some(x)
  {
    var r := DedupeFrom(es, {});
    assert forall n :: n in NumbersOf(es) ==> n in NumbersOf(r) by {
      forall n | n in NumbersOf(es) ensures n in NumbersOf(r) {
        var x :| x in es && x.number == n;
        var i :| 0 <= i < |es| && es[i] == x;
      }
    }
    DedupeFromKeepsFirst(es, {});
    r
  }

  lemma SortedDistinctIsStrict(es: seq<Element>)
    requires SortedByNumber(es)
    requires DistinctNumbers(es)
    ensures Catalog(es)
  {
  }

  lemma HeadIsMember(b: seq<Element>)
    requires |b| > 0
    ensures b[0] in b
  {
  }

  /** Two strictly increasing lists holding the same elements are the same list. */
  lemma {:induction false} StrictListsWithSameElementsAreEqual(a: seq<Element>, b: seq<Element>)
    requires Catalog(a) && Catalog(b)
    requires forall x :: x in a <==> x in b
    ensures a == b
    decreases |a|
  {
    if |a| == 0 {
      if |b| > 0 {
        HeadIsMember(b);
        assert false;
      }
    } else {
      assert a[0] in b;
      assert |b| > 0;
      assert b[0] in a;
      assert a[0].number <= b[0].number;
      assert b[0].number <= a[0].number;
      assert a[0] == b[0];
      assert a == [a[0]] + a[1..];
      assert b == [b[0]] + b[1..];
      forall x
        ensures x in a[1..] <==> x in b[1..]
      {
        if x in a[1..] {
          var k :| 1 <= k < |a| && a[k] == x;
          assert x in b && x != b[0];
        }
        if x in b[1..] {
          var k :| 1 <= k < |b| && b[k] == x;
          assert x in a && x != a[0];
        }
      }
      StrictListsWithSameElementsAreEqual(a[1..], b[1..]);
    }
  }

  /** First element with the given symbol:
      `Object.values(data).find(el => el.symbol === symbol)`. */
  function FindBySymbol(es: seq<Element>, symbol: string): (r: Option<Element>)
    ensures r.Some? ==> r.value in es && r.value.symbol == symbol
    ensures r.Some? ==> exists j :: 0 <= j < |es| && es[j] == r.value && forall k :: 0 <= k < j ==> es[k].symbol != symbol
    ensures r.None? <==> forall x :: x in es ==> x.symbol != symbol
    decreases |es|
  {
    if |es| == 0 then None
    else if es[0].symbol == symbol then Some(es[0])
    else
      var r := FindBySymbol(es[1..], symbol);
      if r.Some? then
        var j :| 0 <= j < |es[1..]| && es[1..][j] == r.value && forall k :: 0 <= k < j ==> es[1..][k].symbol != symbol;
        assert es[j + 1] == r.value;
        assert forall k :: 1 <= k < j + 1 ==> es[k] == es[1..][k - 1];
        r
      else r
  }

}
