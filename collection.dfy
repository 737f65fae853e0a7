/**
 * The server's product store: the in-memory collection of products shared
 * by all commands, the persistence calls made before memory is touched, and
 * the timestamps Info reports.
 *
 * The collection is modelled as a sequence in iteration order. The stable
 * sort by name is exact; the heap order the PriorityQueue keeps between two
 * sorts is not modelled, so what the commands observe about order is stated
 * about the sequence, and what matters about contents is stated over
 * multisets.
 */
module Collection {
  import opened Util
  import opened Models
  import opened Envelope

  // ---------------------------------------------------------------------
  // Ordering by name (Comparator.comparing(getName) with String.compareTo)

  /** String.compareTo(a, b) <= 0: character by character, a proper prefix first. */
  predicate StrLeq(a: string, b: string)
  {
    a == [] || (b != [] && (a[0] < b[0] || (a[0] == b[0] && StrLeq(a[1..], b[1..]))))
  }

  lemma {:induction false} StrLeqTotal(a: string, b: string)
    ensures StrLeq(a, b) || StrLeq(b, a)
  {
    if a != [] && b != [] && a[0] == b[0] {
      StrLeqTotal(a[1..], b[1..]);
    }
  }

  lemma {:induction false} StrLeqTransitive(a: string, b: string, c: string)
    requires StrLeq(a, b) && StrLeq(b, c)
    ensures StrLeq(a, c)
  {
    if a != [] && b != [] && c != [] && a[0] == b[0] && b[0] == c[0] {
      StrLeqTransitive(a[1..], b[1..], c[1..]);
    }
  }

  lemma {:induction false} StrLeqAntisymmetric(a: string, b: string)
    requires StrLeq(a, b) && StrLeq(b, a)
    ensures a == b
  {
    if a != [] && b != [] {
      StrLeqAntisymmetric(a[1..], b[1..]);
      assert a == [a[0]] + a[1..];
      assert b == [b[0]] + b[1..];
    }
  }

  lemma {:induction false} StrLeqReflexive(a: string)
    ensures StrLeq(a, a)
  {
    if a != [] {
      StrLeqReflexive(a[1..]);
    }
  }

  /**
   * a sorts no later than b by name. The JDK comparator throws on a null
   * name; here a missing name sorts first (stored products always have one).
   */
  predicate NameLeq(a: Product, b: Product)
  {
    match (a.name, b.name)
    case (None, _) => true
    case (Some(_), None) => false
    case (Some(x), Some(y)) => StrLeq(x, y)
  }

  lemma NameLeqPreorder(a: Product, b: Product, c: Product)
    ensures NameLeq(a, b) || NameLeq(b, a)
    ensures NameLeq(a, b) && NameLeq(b, c) ==> NameLeq(a, c)
    ensures NameLeq(a, b) && NameLeq(b, a) ==> a.name == b.name
    ensures a.name == b.name ==> NameLeq(a, b)
  {
    if a.name.Some? && b.name.Some? {
      StrLeqTotal(a.name.value, b.name.value);
      StrLeqReflexive(a.name.value);
      if StrLeq(a.name.value, b.name.value) && StrLeq(b.name.value, a.name.value) {
        StrLeqAntisymmetric(a.name.value, b.name.value);
      }
      if c.name.Some? && NameLeq(a, b) && NameLeq(b, c) {
        StrLeqTransitive(a.name.value, b.name.value, c.name.value);
      }
    }
  }

  predicate SortedByName(s: seq<Product>)
  {
    forall i, j :: 0 <= i < j < |s| ==> NameLeq(s[i], s[j])
  }

  /** Places x after every element that does not sort after it. */
  function Insert(x: Product, s: seq<Product>): seq<Product>
  {
    if s == [] then [x]
    else if NameLeq(s[0], x) then [s[0]] + Insert(x, s[1..])
    else [x] + s
  }

  /** stream().sorted(Comparator.comparing(getName)): a stable sort by name. */
  function SortByName(s: seq<Product>): seq<Product>
  {
    if s == [] then [] else Insert(s[|s| - 1], SortByName(s[..|s| - 1]))
  }

  lemma {:induction false} InsertMultiset(x: Product, s: seq<Product>)
    ensures multiset(Insert(x, s)) == multiset(s) + multiset{x}
  {
    if s != [] && NameLeq(s[0], x) {
      InsertMultiset(x, s[1..]);
      assert s == [s[0]] + s[1..];
    }
  }

  lemma {:induction false} InsertSorted(x: Product, s: seq<Product>)
    requires SortedByName(s)
    ensures SortedByName(Insert(x, s))
  {
    if s == [] {
    } else if NameLeq(s[0], x) {
      InsertSorted(x, s[1..]);
      InsertMultiset(x, s[1..]);
      var t := Insert(x, s[1..]);
      forall k | 0 <= k < |t|
        ensures NameLeq(s[0], t[k])
      {
        assert t[k] in multiset(s[1..]) + multiset{x};
        if t[k] != x {
          var j :| 0 <= j < |s[1..]| && s[1..][j] == t[k];
          assert s[j + 1] == t[k];
        }
      }
    } else {
      forall k | 0 <= k < |s|
        ensures NameLeq(x, s[k])
      {
        NameLeqPreorder(s[0], x, s[k]);
        NameLeqPreorder(x, s[0], s[k]);
      }
    }
  }

  /** The sort's result is ordered by name. */
  lemma {:induction false} SortSorted(s: seq<Product>)
    ensures SortedByName(SortByName(s))
  {
    if s != [] {
      SortSorted(s[..|s| - 1]);
      InsertSorted(s[|s| - 1], SortByName(s[..|s| - 1]));
    }
  }

  /** The sort is a permutation: the same elements, each as often. */
  lemma {:induction false} SortPermutation(s: seq<Product>)
    ensures multiset(SortByName(s)) == multiset(s)
    ensures |SortByName(s)| == |s|
  {
    if s != [] {
      SortPermutation(s[..|s| - 1]);
      InsertMultiset(s[|s| - 1], SortByName(s[..|s| - 1]));
      assert s == s[..|s| - 1] + [s[|s| - 1]];
    }
    assert |multiset(SortByName(s))| == |multiset(s)|;
  }

  /** The elements carrying one given name, in order. */
  function WithName(s: seq<Product>, n: Option<string>): seq<Product>
  {
    if s == [] then [] else (if s[0].name == n then [s[0]] else []) + WithName(s[1..], n)
  }

  lemma {:induction false} WithNameAppend(a: seq<Product>, b: seq<Product>, n: Option<string>)
    ensures WithName(a + b, n) == WithName(a, n) + WithName(b, n)
  {
    if a == [] {
      assert a + b == b;
    } else {
      var ab := a + b;
      var head := if a[0].name == n then [a[0]] else [];
      assert ab[0] == a[0] && ab[1..] == a[1..] + b;
      calc {
        WithName(ab, n);
        head + WithName(a[1..] + b, n);
        { WithNameAppend(a[1..], b, n); }
        head + (WithName(a[1..], n) + WithName(b, n));
        (head + WithName(a[1..], n)) + WithName(b, n);
        WithName(a, n) + WithName(b, n);
      }
    }
  }

  lemma {:induction false} WithNameNone(s: seq<Product>, n: Option<string>)
    requires forall k :: 0 <= k < |s| ==> s[k].name != n
    ensures WithName(s, n) == []
  {
    if s != [] {
      WithNameNone(s[1..], n);
    }
  }

  lemma {:induction false} InsertStable(x: Product, s: seq<Product>, n: Option<string>)
    requires SortedByName(s)
    ensures WithName(Insert(x, s), n) == WithName(s, n) + (if x.name == n then [x] else [])
  {
    var t := if x.name == n then [x] else [];
    if s == [] {
    } else if NameLeq(s[0], x) {
      var r := Insert(x, s[1..]);
      var head := if s[0].name == n then [s[0]] else [];
      assert ([s[0]] + r)[0] == s[0] && ([s[0]] + r)[1..] == r;
      calc {
        WithName(Insert(x, s), n);
        WithName([s[0]] + r, n);
        head + WithName(r, n);
        { InsertStable(x, s[1..], n); }
        head + (WithName(s[1..], n) + t);
        (head + WithName(s[1..], n)) + t;
      }
    } else {
      assert ([x] + s)[0] == x && ([x] + s)[1..] == s;
      if x.name == n {
        forall k | 0 <= k < |s|
          ensures s[k].name != n
        {
          if s[k].name == n {
            NameLeqPreorder(s[k], x, x);
            NameLeqPreorder(s[0], s[k], x);
          }
        }
        WithNameNone(s, n);
      }
    }
  }

  /** Stability: the products sharing a name keep their relative order. */
  lemma {:induction false} SortStable(s: seq<Product>, n: Option<string>)
    ensures WithName(SortByName(s), n) == WithName(s, n)
  {
    if s != [] {
      var init, last := s[..|s| - 1], s[|s| - 1];
      SortStable(init, n);
      SortSorted(init);
      InsertStable(last, SortByName(init), n);
      assert s == init + [last];
      WithNameAppend(init, [last], n);
    }
  }

  lemma {:induction false} InsertLast(x: Product, s: seq<Product>)
    requires forall k :: 0 <= k < |s| ==> NameLeq(s[k], x)
    ensures Insert(x, s) == s + [x]
  {
    if s != [] {
      InsertLast(x, s[1..]);
    }
  }

  /** An already ordered sequence is left as it is. */
  lemma {:induction false} SortKeepsSorted(s: seq<Product>)
    requires SortedByName(s)
    ensures SortByName(s) == s
  {
    if s != [] {
      var init := s[..|s| - 1];
      SortKeepsSorted(init);
      InsertLast(s[|s| - 1], init);
    }
  }

  /** Sorting twice equals sorting once. */
  lemma SortIdempotent(s: seq<Product>)
    ensures SortByName(SortByName(s)) == SortByName(s)
  {
    SortSorted(s);
    SortKeepsSorted(SortByName(s));
  }

  // ---------------------------------------------------------------------
  // validateAll

  function IdsOf(s: seq<Product>): set<Option<int>>
  {
    set k | 0 <= k < |s| :: s[k].id
  }

  /** The elements validateAll keeps, built the way its loop builds them. */
  function ValidUnique(s: seq<Product>): seq<Product>
  {
    if s == [] then []
    else
      var kept := ValidUnique(s[..|s| - 1]);
      var x := s[|s| - 1];
      if ValidProduct(x) && x.id !in IdsOf(kept) then kept + [x] else kept
  }

  /** Element i survives: it is valid and no earlier valid element has its id. */
  predicate FirstValidWithId(s: seq<Product>, i: nat)
    requires i < |s|
  {
    ValidProduct(s[i]) && forall j :: 0 <= j < i ==> !(ValidProduct(s[j]) && s[j].id == s[i].id)
  }

  /** The subsequence of s[..n] at the surviving positions, in their original order. */
  function Survivors(s: seq<Product>, n: nat): seq<Product>
    requires n <= |s|
  {
    if n == 0 then [] else Survivors(s, n - 1) + (if FirstValidWithId(s, n - 1) then [s[n - 1]] else [])
  }

  /** The ids validateAll records are the ids of the valid elements seen. */
  lemma {:induction false} ValidUniqueIds(s: seq<Product>)
    ensures IdsOf(ValidUnique(s)) == set k | 0 <= k < |s| && ValidProduct(s[k]) :: s[k].id
  {
    if s != [] {
      var init := s[..|s| - 1];
      ValidUniqueIds(init);
      var kept := ValidUnique(init);
      var x := s[|s| - 1];
      if ValidProduct(x) && x.id !in IdsOf(kept) {
        assert IdsOf(kept + [x]) == IdsOf(kept) + {x.id} by {
          assert forall k :: 0 <= k < |kept| ==> (kept + [x])[k] == kept[k];
          assert (kept + [x])[|kept|] == x;
        }
      }
      assert forall k :: 0 <= k < |init| ==> s[k] == init[k];
    }
  }

  /**
   * validateAll keeps exactly the valid elements whose id no earlier valid
   * element carries, in their original order.
   */
  lemma {:induction false} ValidUniqueSurvivors(s: seq<Product>, n: nat)
    requires n <= |s|
    ensures ValidUnique(s[..n]) == Survivors(s, n)
  {
    if n > 0 {
      ValidUniqueSurvivors(s, n - 1);
      assert s[..n][..n - 1] == s[..n - 1];
      ValidUniqueIds(s[..n - 1]);
      var x := s[n - 1];
      assert s[..n][n - 1] == x;
      if ValidProduct(x) {
        if x.id in IdsOf(ValidUnique(s[..n - 1])) {
          var k :| 0 <= k < n - 1 && ValidProduct(s[..n - 1][k]) && s[..n - 1][k].id == x.id;
          assert s[k] == s[..n - 1][k];
          assert !FirstValidWithId(s, n - 1);
        } else {
          forall j | 0 <= j < n - 1
            ensures !(ValidProduct(s[j]) && s[j].id == x.id)
          {
            assert s[j] == s[..n - 1][j];
          }
        }
      }
    }
  }

  /** Every kept element is valid and the kept ids are pairwise distinct. */
  lemma {:induction false} ValidUniqueClean(s: seq<Product>)
    ensures forall k :: 0 <= k < |ValidUnique(s)| ==> ValidProduct(ValidUnique(s)[k])
    ensures forall i, j :: 0 <= i < j < |ValidUnique(s)| ==> ValidUnique(s)[i].id != ValidUnique(s)[j].id
  {
    if s != [] {
      ValidUniqueClean(s[..|s| - 1]);
      var kept := ValidUnique(s[..|s| - 1]);
      var x := s[|s| - 1];
      if ValidProduct(x) && x.id !in IdsOf(kept) {
        var r := kept + [x];
        forall i, j | 0 <= i < j < |r|
          ensures r[i].id != r[j].id
        {
          if j == |kept| {
            assert r[i].id in IdsOf(kept);
          }
        }
      }
    }
  }

  lemma {:induction false} CleanIsFixed(s: seq<Product>)
    requires forall k :: 0 <= k < |s| ==> ValidProduct(s[k])
    requires forall i, j :: 0 <= i < j < |s| ==> s[i].id != s[j].id
    ensures ValidUnique(s) == s
  {
    if s != [] {
      var init := s[..|s| - 1];
      CleanIsFixed(init);
      assert s[|s| - 1].id !in IdsOf(init);
      assert s == init + [s[|s| - 1]];
    }
  }

  /** A second validateAll changes nothing. */
  lemma ValidUniqueIdempotent(s: seq<Product>)
    ensures ValidUnique(ValidUnique(s)) == ValidUnique(s)
  {
    ValidUniqueClean(s);
    CleanIsFixed(ValidUnique(s));
  }

  /** validateAll keeps some of the elements it is given, never more often than they occur. */
  lemma {:induction false} ValidUniqueSub(s: seq<Product>)
    ensures multiset(ValidUnique(s)) <= multiset(s)
  {
    if s != [] {
      ValidUniqueSub(s[..|s| - 1]);
      assert s == s[..|s| - 1] + [s[|s| - 1]];
    }
  }

  /**
   * validateAll's loop, over HashSets and a fresh PriorityQueue: each kept
   * element is added to the new queue, and such an add may throw. Over a
   * collection that keeps QueueComparable it never does.
   */
  method KeepValidUnique(s: seq<Product>) returns (fault: Option<Fault>, r: seq<Product>)
    ensures QueueComparable(s) ==> fault.None?
    ensures fault.None? ==> r == ValidUnique(s)
  {
    fault := None;
    r := [];
    var existingIds: set<Option<int>> := {};
    for i := 0 to |s|
      invariant r == ValidUnique(s[..i])
      invariant existingIds == IdsOf(r)
    {
      var element := s[i];
      assert s[..i + 1][..i] == s[..i];
      if !ValidProduct(element) {
      } else if element.id in existingIds {
      } else {
        assert s == s[..i + 1] + s[i + 1..];
        ValidUniqueSub(s[..i + 1]);
        ComparableKept(s, r + [element]);
        QueueAddComparable(r, element);
        var (f, added) := QueueAdd(r, element);
        if f.Some? {
          return f, r;
        }
        assert IdsOf(r + [element]) == IdsOf(r) + {element.id} by {
          assert forall k :: 0 <= k < |r| ==> (r + [element])[k] == r[k];
          assert (r + [element])[|r|] == element;
        }
        existingIds := existingIds + {element.id};
        r := added;
      }
    }
    assert s[..|s|] == s;
  }

  // ---------------------------------------------------------------------
  // Lookup by id

  /** Where the first element with the given id sits (getId(element).equals(id)). */
  function IndexOfId(s: seq<Product>, id: Option<int>): (r: Option<nat>)
    ensures r.Some? ==> r.value < |s| && id.Some? && s[r.value].id == id
    ensures r.Some? ==> forall j :: 0 <= j < r.value ==> s[j].id != id
    ensures r.None? ==> forall j :: 0 <= j < |s| ==> id.None? || s[j].id != id
  {
    if s == [] || id.None? then None
    else if s[0].id == id then Some(0)
    else
      var k := IndexOfId(s[1..], id);
      if k.Some? then Some(k.value + 1) else None
  }

  // ---------------------------------------------------------------------
  // The PriorityQueue's comparisons (Product.compareTo unboxes both prices)

  /** Every element has a price. */
  predicate AllPriced(s: seq<Product>)
  {
    forall k :: 0 <= k < |s| ==> s[k].price.Some?
  }

  /**
   * What the store keeps between commands: once it holds two or more
   * products, every one has a price. A single product without a price can
   * only have gone into an empty queue, where add compares nothing.
   */
  predicate QueueComparable(s: seq<Product>)
  {
    |s| >= 2 ==> AllPriced(s)
  }

  /**
   * PriorityQueue.add sifts the new element up from the last slot, so into
   * a non-empty queue it is compared with at least its parent, and
   * Integer.compare on a null price throws. Over a QueueComparable queue
   * this is exact: the add throws when the queue is non-empty and either
   * the new element or the queue's only element has no price.
   */
  predicate AddThrows(s: seq<Product>, x: Product)
  {
    s != [] && (x.price.None? || !AllPriced(s))
  }

  /** PriorityQueue.add: on the NullPointerException the queue is as it was. */
  function QueueAdd(s: seq<Product>, x: Product): (Option<Fault>, seq<Product>)
  {
    if AddThrows(s, x) then (Some(NullPointer), s) else (None, s + [x])
  }

  /** An add succeeds exactly when the queue it makes keeps the invariant, and a failed add keeps it too. */
  lemma QueueAddComparable(s: seq<Product>, x: Product)
    ensures QueueAdd(s, x).0.None? <==> QueueComparable(s + [x])
    ensures QueueComparable(s) ==> QueueComparable(QueueAdd(s, x).1)
  {
    var t := s + [x];
    assert t[|s|] == x;
    assert forall k :: 0 <= k < |s| ==> t[k] == s[k];
  }

  /** A queue holding some of a comparable queue's elements, each at most as often, is comparable. */
  lemma ComparableKept(s: seq<Product>, s': seq<Product>)
    ensures QueueComparable(s) && multiset(s') <= multiset(s) ==> QueueComparable(s')
  {
    if QueueComparable(s) && multiset(s') <= multiset(s) && |s'| >= 2 {
      var a, b := s'[0], s'[1];
      assert s' == [a, b] + s'[2..];
      assert a in multiset(s) && b in multiset(s);
      var i :| 0 <= i < |s| && s[i] == a;
      if a == b {
        assert multiset(s')[a] >= 2;
        assert s == s[..i] + [a] + s[i + 1..];
        assert a in multiset(s[..i] + s[i + 1..]);
      } else {
        var j :| 0 <= j < |s| && s[j] == b;
      }
      forall k | 0 <= k < |s'|
        ensures s'[k].price.Some?
      {
        assert s'[k] in multiset(s);
      }
    }
  }

  /**
   * addAll, as setCollection calls it after clear: one add after another;
   * the first add that throws stops the rest, and the queue keeps what was
   * added before it.
   */
  function Refill(q: seq<Product>, rest: seq<Product>): (Option<Fault>, seq<Product>)
    decreases |rest|
  {
    if rest == [] then (None, q)
    else
      var (fault, q') := QueueAdd(q, rest[0]);
      if fault.Some? then (fault, q') else Refill(q', rest[1..])
  }

  /** A prefix of a comparable sequence is comparable. */
  lemma ComparablePrefix(s: seq<Product>, t: seq<Product>)
    ensures QueueComparable(s + t) ==> QueueComparable(s)
  {
    assert forall k :: 0 <= k < |s| ==> (s + t)[k] == s[k];
  }

  /**
   * From a comparable queue, addAll adds everything in order exactly when
   * the queue it makes keeps the invariant.
   */
  lemma {:induction false} RefillComparable(q: seq<Product>, rest: seq<Product>)
    requires QueueComparable(q)
    ensures Refill(q, rest).0.None? <==> QueueComparable(q + rest)
    ensures Refill(q, rest).0.None? ==> Refill(q, rest).1 == q + rest
    decreases |rest|
  {
    if rest == [] {
      assert q + rest == q;
    } else {
      QueueAddComparable(q, rest[0]);
      assert q + rest == (q + [rest[0]]) + rest[1..];
      ComparablePrefix(q + [rest[0]], rest[1..]);
      if QueueAdd(q, rest[0]).0.None? {
        RefillComparable(q + [rest[0]], rest[1..]);
      }
    }
  }

  /** addAll keeps at most what it was given. */
  lemma {:induction false} RefillKept(q: seq<Product>, rest: seq<Product>)
    ensures multiset(Refill(q, rest).1) <= multiset(q + rest)
    decreases |rest|
  {
    if rest != [] {
      assert q + rest == (q + [rest[0]]) + rest[1..];
      if QueueAdd(q, rest[0]).0.None? {
        RefillKept(q + [rest[0]], rest[1..]);
      }
    }
  }

  // ---------------------------------------------------------------------
  // Store operations as functions of the contents

  /** What the database does with a delete: a row removed, none removed, or an exception. */
  datatype Deletion = Deleted | NotDeleted | DeleteFailed(fault: Fault)

  /**
   * CollectionManager.addToCollection: add to the queue, sort, and return
   * the element's id; the add and the sort's addAll may each throw.
   */
  function BaseAdd(s: seq<Product>, element: Product): (Outcome<Option<int>>, seq<Product>)
  {
    var (fault, added) := QueueAdd(s, element);
    if fault.Some? then (Thrown(fault.value), added)
    else
      var (fault', sorted) := Refill([], SortByName(added));
      if fault'.Some? then (Thrown(fault'.value), sorted) else (Done(element.id), sorted)
  }

  /**
   * The add throws exactly when AddThrows says, and then nothing changes;
   * after an add that did not throw the sort never does, and the contents
   * are the old ones with the element, sorted by name.
   */
  lemma BaseAddContract(s: seq<Product>, element: Product)
    ensures var (r, s') := BaseAdd(s, element);
      (r.Done? <==> !AddThrows(s, element))
      && (r.Thrown? ==> r.fault == NullPointer && s' == s)
      && (r.Done? ==> r.value == element.id && s' == SortByName(s + [element]))
  {
    QueueAddComparable(s, element);
    if !AddThrows(s, element) {
      var sorted := SortByName(s + [element]);
      SortPermutation(s + [element]);
      ComparableKept(s + [element], sorted);
      RefillComparable([], sorted);
      assert [] + sorted == sorted;
    }
  }

  /**
   * ProductCollectionManager.addToCollection: stamp the owner, insert into the
   * database, and only on a non-negative id stamp the id and do the base add,
   * returning the database id.
   */
  function StoreAdd(s: seq<Product>, username: Option<string>, element: Product, insert: Product -> int)
    : (Outcome<int>, seq<Product>)
  {
    var owned := element.(username := username);
    var id := insert(owned);
    if id < 0 then (Done(id), s)
    else
      var (r, s') := BaseAdd(s, owned.(id := Some(id)));
      if r.Thrown? then (Thrown(r.fault), s') else (Done(id), s')
  }

  /**
   * A refused insert leaves memory alone and returns the id; after an
   * accepted insert the queue add throws exactly when AddThrows says (the
   * row stays in the database, memory is unchanged), and otherwise memory
   * gains exactly the element with the requester as owner and the new id.
   */
  lemma StoreAddContract(s: seq<Product>, username: Option<string>, element: Product, insert: Product -> int)
    ensures var (r, s') := StoreAdd(s, username, element, insert);
      var id := insert(element.(username := username));
      (r.Done? <==> id < 0 || !AddThrows(s, element))
      && (r.Done? ==> r.value == id)
      && (r.Thrown? ==> r.fault == NullPointer)
      && (id < 0 || r.Thrown? ==> s' == s)
      && (id >= 0 && r.Done? ==>
            multiset(s') == multiset(s) + multiset{element.(username := username, id := Some(id))}
            && SortedByName(s'))
  {
    var stored := element.(username := username, id := Some(insert(element.(username := username))));
    BaseAddContract(s, stored);
    SortPermutation(s + [stored]);
    SortSorted(s + [stored]);
  }

  /** Where the first element equal to e by Product.equals sits. */
  function FindEqual(s: seq<Product>, e: Product): (r: Option<nat>)
    ensures r.Some? ==> r.value < |s| && SameFields(s[r.value], e)
    ensures r.Some? ==> forall j :: 0 <= j < r.value ==> !SameFields(s[j], e)
    ensures r.None? ==> forall j :: 0 <= j < |s| ==> !SameFields(s[j], e)
  {
    if s == [] then None
    else if SameFields(s[0], e) then Some(0)
    else
      var k := FindEqual(s[1..], e);
      if k.Some? then Some(k.value + 1) else None
  }

  /** Collection.remove(element): drop the first element equal to it, whoever owns it. */
  function RemoveFirstEqual(s: seq<Product>, e: Product): seq<Product>
  {
    var k := FindEqual(s, e);
    if k.None? then s else s[..k.value] + s[k.value + 1..]
  }

  /** Dropping the first equal element takes exactly that one element out. */
  lemma RemoveFirstEqualContents(s: seq<Product>, e: Product)
    requires FindEqual(s, e).Some?
    ensures var k := FindEqual(s, e).value;
      |RemoveFirstEqual(s, e)| == |s| - 1
      && multiset(RemoveFirstEqual(s, e)) + multiset{s[k]} == multiset(s)
  {
    var k := FindEqual(s, e).value;
    DropAt(s, k);
  }

  /**
   * The records with their id and owner blanked out, as a multiset: what
   * Product.equals can tell apart in a collection.
   */
  function FieldsOf(s: seq<Product>): (m: multiset<Product>)
    ensures |m| == |s|
  {
    if s == [] then multiset{} else FieldsOf(s[..|s| - 1]) + multiset{Fields(s[|s| - 1])}
  }

  lemma {:induction false} FieldsOfAppend(a: seq<Product>, b: seq<Product>)
    ensures FieldsOf(a + b) == FieldsOf(a) + FieldsOf(b)
    decreases |b|
  {
    if b == [] {
      assert a + b == a;
    } else {
      var init := b[..|b| - 1];
      FieldsOfAppend(a, init);
      assert (a + b)[..|a + b| - 1] == a + init;
    }
  }

  lemma FieldsOfSnoc(s: seq<Product>, x: Product)
    ensures FieldsOf(s + [x]) == FieldsOf(s) + multiset{Fields(x)}
  {
    assert (s + [x])[..|s|] == s;
  }

  /** A field set no record carries does not occur. */
  lemma {:induction false} FieldsOfAbsent(s: seq<Product>, m: Product)
    requires forall j :: 0 <= j < |s| ==> Fields(s[j]) != m
    ensures FieldsOf(s)[m] == 0
  {
    if s != [] {
      FieldsOfAbsent(s[..|s| - 1], m);
    }
  }

  /** Taking record k out takes one occurrence of its fields out. */
  lemma FieldsOfSplit(s: seq<Product>, k: nat)
    requires k < |s|
    ensures FieldsOf(s) == FieldsOf(s[..k] + s[k + 1..]) + multiset{Fields(s[k])}
  {
    SplitAt(s, k);
    FieldsOfMiddle(s[..k], s[k], s[k + 1..]);
  }

  lemma SplitAt(s: seq<Product>, k: nat)
    requires k < |s|
    ensures s == s[..k] + [s[k]] + s[k + 1..]
  {
  }

  lemma FieldsOfMiddle(pre: seq<Product>, x: Product, post: seq<Product>)
    ensures FieldsOf(pre + [x] + post) == FieldsOf(pre + post) + multiset{Fields(x)}
  {
    FieldsOfAppend(pre + [x], post);
    FieldsOfSnoc(pre, x);
    FieldsOfAppend(pre, post);
    Shuffle(FieldsOf(pre), FieldsOf(post), multiset{Fields(x)});
  }

  /** Every record's fields occur. */
  lemma FieldsOfElem(s: seq<Product>, k: nat)
    requires k < |s|
    ensures FieldsOf(s)[Fields(s[k])] > 0
  {
    FieldsOfSplit(s, k);
  }

  /** Some record equals e exactly when e's fields occur. */
  lemma FieldsOfFind(s: seq<Product>, e: Product)
    ensures FindEqual(s, e).Some? <==> FieldsOf(s)[Fields(e)] > 0
  {
    if FindEqual(s, e).Some? {
      FieldsOfElem(s, FindEqual(s, e).value);
    } else {
      FieldsOfAbsent(s, Fields(e));
    }
  }

  /** Dropping the first record equal to e takes one occurrence of e's fields out. */
  lemma FieldsOfRemove(s: seq<Product>, e: Product)
    requires FindEqual(s, e).Some?
    ensures FieldsOf(RemoveFirstEqual(s, e)) + multiset{Fields(e)} == FieldsOf(s)
  {
    var k := FindEqual(s, e).value;
    FieldsOfSplit(s, k);
    assert Fields(s[k]) == Fields(e);
  }

  /** Reordering the records does not change their fields. */
  lemma {:induction false} FieldsOfPermutation(a: seq<Product>, b: seq<Product>)
    requires multiset(a) == multiset(b)
    ensures FieldsOf(a) == FieldsOf(b)
    decreases |a|
  {
    if a != [] {
      var init, last := a[..|a| - 1], a[|a| - 1];
      DropAt(a, |a| - 1);
      assert a[..|a| - 1] + a[|a|..] == init;
      assert last in multiset(b);
      var k :| 0 <= k < |b| && b[k] == last;
      var rest := b[..k] + b[k + 1..];
      DropAt(b, k);
      Cancel(multiset(init), multiset(rest), multiset{last});
      FieldsOfPermutation(init, rest);
      FieldsOfSplit(b, k);
    }
  }

  lemma Shuffle(x: multiset<Product>, y: multiset<Product>, m: multiset<Product>)
    ensures (x + m) + y == (x + y) + m
  {
  }

  lemma DropAt(s: seq<Product>, k: nat)
    requires k < |s|
    ensures multiset(s) == multiset(s[..k] + s[k + 1..]) + multiset{s[k]}
  {
    assert s == s[..k] + [s[k]] + s[k + 1..];
  }

  lemma Cancel(x: multiset<Product>, y: multiset<Product>, m: multiset<Product>)
    requires x + m == y + m
    ensures x == y
  {
    assert x == (x + m) - m;
    assert y == (y + m) - m;
  }

  /**
   * ProductCollectionManager.removeFromCollection: refuse a null element or
   * another owner's record, delete from the database, and only after a
   * confirmed delete remove from memory. A null owner on the record throws.
   */
  function StoreRemove(s: seq<Product>, element: Option<Product>, username: Option<string>, delete: int -> Deletion)
    : (Outcome<bool>, seq<Product>)
  {
    if element.None? then (Done(false), s)
    else
      var e := element.value;
      if e.username.None? then (Thrown(NullPointer), s)
      else if e.username != username then (Done(false), s)
      else if e.id.None? then (Done(false), s)   // unboxing the null id throws inside the try
      else if delete(e.id.value) != Deleted then (Done(false), s)
      else (Done(FindEqual(s, e).Some?), RemoveFirstEqual(s, e))
  }

  /**
   * Memory changes only after a confirmed delete of the requester's own
   * record, and then loses one element equal to it, not necessarily the
   * same record.
   */
  lemma StoreRemoveContract(s: seq<Product>, element: Option<Product>, username: Option<string>, delete: int -> Deletion)
    ensures var (r, s') := StoreRemove(s, element, username, delete);
      (element.None? ==> r == Done(false) && s' == s)
      && (element.Some? && element.value.username.Some? && element.value.username != username ==> r == Done(false) && s' == s)
      && (element.Some? && element.value.id.Some? && delete(element.value.id.value) != Deleted ==> r.Done? ==> !r.value && s' == s)
      && (r == Done(true) ==>
            element.Some? && element.value.username == username && element.value.id.Some?
            && delete(element.value.id.value) == Deleted
            && (exists k :: 0 <= k < |s| && SameFields(s[k], element.value) && s' == s[..k] + s[k + 1..]))
      && (r != Done(true) ==> s' == s)
  {
    if element.Some? {
      var k := FindEqual(s, element.value);
      if k.Some? {
        assert SameFields(s[k.value], element.value);
      }
    }
  }

  /**
   * Equality ignores owner and id, so a confirmed removal of one's own record
   * can take another owner's record with the same fields out of memory.
   */
  lemma RemoveCanTakeAnotherOwnersTwin(delete: int -> Deletion)
    requires delete(1) == Deleted
    ensures var mine := Product(Some(1), Some("ann"), Some("tea"), None, None, Some(5), None, None);
      var theirs := mine.(id := Some(2), username := Some("bob"));
      StoreRemove([theirs, mine], Some(mine), Some("ann"), delete) == (Done(true), [mine])
  {
    var mine := Product(Some(1), Some("ann"), Some("tea"), None, None, Some(5), None, None);
    var theirs := mine.(id := Some(2), username := Some("bob"));
    assert FindEqual([theirs, mine], mine) == Some(0);
    assert [theirs, mine][1..] == [mine];
    assert RemoveFirstEqual([theirs, mine], mine) == [mine];
    assert mine.username == Some("ann");
    assert StoreRemove([theirs, mine], Some(mine), Some("ann"), delete).1 == [mine];
    assert StoreRemove([theirs, mine], Some(mine), Some("ann"), delete).0 == Done(true);
  }

  /** removeIf(e -> username.equals(e.getUsername())); a null username throws on the first element. */
  function StoreClear(s: seq<Product>, username: Option<string>): (Option<Fault>, seq<Product>)
  {
    if username.None? then (if s == [] then None else Some(NullPointer), s)
    else (None, WithoutOwner(s, username.value))
  }

  function WithoutOwner(s: seq<Product>, u: string): seq<Product>
  {
    if s == [] then [] else (if s[0].username == Some(u) then [] else [s[0]]) + WithoutOwner(s[1..], u)
  }

  /** Exactly the given owner's records go; every other record stays, as often as before. */
  lemma {:induction false} WithoutOwnerContents(s: seq<Product>, u: string, x: Product)
    ensures multiset(WithoutOwner(s, u))[x] == if x.username == Some(u) then 0 else multiset(s)[x]
  {
    if s != [] {
      WithoutOwnerContents(s[1..], u, x);
      assert s == [s[0]] + s[1..];
    }
  }

  /**
   * updateInCollection: removeIf drops every element with the new element's
   * id (rebuilding the heap, which compares only the elements kept); only
   * when one was dropped is the new element added, and that add may throw
   * after the old record is gone.
   */
  function UpdatedWith(s: seq<Product>, e: Product): (Option<Fault>, seq<Product>)
  {
    if IndexOfId(s, e.id).Some? then QueueAdd(WithoutId(s, e.id), e) else (None, s)
  }

  function WithoutId(s: seq<Product>, id: Option<int>): seq<Product>
  {
    if s == [] then [] else (if s[0].id == id then [] else [s[0]]) + WithoutId(s[1..], id)
  }

  lemma {:induction false} WithoutIdContents(s: seq<Product>, id: Option<int>, x: Product)
    ensures multiset(WithoutId(s, id))[x] == if x.id == id then 0 else multiset(s)[x]
  {
    if s != [] {
      WithoutIdContents(s[1..], id, x);
      assert s == [s[0]] + s[1..];
    }
  }

  /** Dropping the elements with an id shortens the collection when one has it. */
  lemma {:induction false} WithoutIdShorter(s: seq<Product>, id: Option<int>)
    ensures |WithoutId(s, id)| <= |s|
    ensures IndexOfId(s, id).Some? ==> |WithoutId(s, id)| < |s|
  {
    if s != [] {
      WithoutIdShorter(s[1..], id);
    }
  }

  /**
   * With a match, no old element with that id survives and every element
   * with another id is kept; the new element is then there once, unless
   * its add threw, which happens exactly when AddThrows says over what
   * removeIf left. Without a match nothing changes.
   */
  lemma UpdatedWithContents(s: seq<Product>, e: Product, x: Product)
    ensures IndexOfId(s, e.id).None? ==> UpdatedWith(s, e) == (None, s)
    ensures IndexOfId(s, e.id).Some? ==>
      var (fault, s') := UpdatedWith(s, e);
      (fault.Some? <==> AddThrows(WithoutId(s, e.id), e))
      && (fault.Some? ==> fault.value == NullPointer)
      && (fault.Some? || x != e ==> multiset(s')[x] == if x.id == e.id then 0 else multiset(s)[x])
      && (fault.None? ==> multiset(s')[e] == 1)
  {
    WithoutIdContents(s, e.id, x);
    WithoutIdContents(s, e.id, e);
  }

  /**
   * Over a comparable collection with a match, the update's add throws
   * exactly when the new element has no price and another record remains.
   */
  lemma UpdateThrowsOnNullPrice(s: seq<Product>, e: Product)
    requires QueueComparable(s) && IndexOfId(s, e.id).Some?
    ensures UpdatedWith(s, e).0.Some? <==> e.price.None? && WithoutId(s, e.id) != []
  {
    var w := WithoutId(s, e.id);
    var k := IndexOfId(s, e.id).value;
    WithoutIdContents(s, e.id, s[k]);
    forall x | true
      ensures multiset(w)[x] <= multiset(s)[x]
    {
      WithoutIdContents(s, e.id, x);
    }
    if w != [] {
      assert w[0] in multiset(w);
      WithoutIdContents(s, e.id, w[0]);
      assert w[0] in multiset(s);
      var i :| 0 <= i < |s| && s[i] == w[0];
      assert s[i].id != s[k].id;
      forall j | 0 <= j < |w|
        ensures w[j].price.Some?
      {
        assert w[j] in multiset(s);
      }
    }
  }

  /** Every stored product has an id. */
  predicate Identified(s: seq<Product>)
  {
    forall k :: 0 <= k < |s| ==> s[k].id.Some?
  }

  lemma IdentifiedKept(s: seq<Product>, s': seq<Product>)
    requires Identified(s) && multiset(s') <= multiset(s)
    ensures Identified(s')
  {
    forall k | 0 <= k < |s'|
      ensures s'[k].id.Some?
    {
      assert s'[k] in multiset(s);
    }
  }

  // ---------------------------------------------------------------------
  // The store

  /** collection.getClass().getName() for the PriorityQueue the store keeps. */
  const COLLECTION_TYPE: string := "java.util.PriorityQueue"

  class ProductCollectionManager {
    var items: seq<Product>
    var lastInitTime: Option<Time>
    var lastSaveTime: Option<Time>

    /** Every stored product has an id, and the heap's comparisons never meet a null price. */
    ghost predicate Valid()
      reads this
    {
      Identified(items) && QueueComparable(items)
    }

    /**
     * The constructor loads the table (every row carries its id, and getInt
     * reads a missing price as 0), puts it into the queue, sorts it and
     * stamps the init time.
     */
    constructor (loaded: seq<Product>, now: Time)
      requires Identified(loaded) && AllPriced(loaded)
      ensures Valid()
      ensures items == SortByName(loaded) && lastInitTime == Some(now) && lastSaveTime.None?
    {
      items := [];
      lastInitTime := None;
      lastSaveTime := None;
      new;
      RefillComparable([], loaded);
      assert [] + loaded == loaded;
      var fault := SetCollection(loaded);
      fault := SortCollection();
      lastInitTime := Some(now);
    }

    function CollectionType(): string
    {
      COLLECTION_TYPE
    }

    function CollectionSize(): (n: nat)
      reads this
      ensures n == |items|
    {
      |items|
    }

    /** validateAll: the new queue replaces the old one only when building it did not throw. */
    method ValidateAll()
      requires Valid()
      modifies this`items
      ensures Valid()
      ensures items == ValidUnique(old(items))
    {
      var fault, kept := KeepValidUnique(items);
      if fault.None? {
        ValidUniqueSub(items);
        IdentifiedKept(items, kept);
        ComparableKept(items, kept);
        items := kept;
      }
    }

    /**
     * checkExist: getId(element).equals(id) over the collection. Every
     * stored record has an id, so the comparison never throws.
     */
    method CheckExist(id: Option<int>) returns (found: bool)
      requires Valid()
      ensures found <==> exists k :: 0 <= k < |items| && id.Some? && items[k].id == id
    {
      found := false;
      var i := 0;
      while i < |items|
        invariant 0 <= i <= |items|
        invariant forall j :: 0 <= j < i ==> id.None? || items[j].id != id
      {
        if id.Some? && items[i].id == id {
          return true;
        }
        i := i + 1;
      }
    }

    method GetById(id: Option<int>) returns (r: Option<Product>)
      requires Valid()
      ensures r.None? <==> forall k :: 0 <= k < |items| ==> id.None? || items[k].id != id
      ensures r.Some? ==> exists k :: (0 <= k < |items| && items[k] == r.value && r.value.id == id && id.Some?
        && forall j :: 0 <= j < k ==> items[j].id != id)
      ensures r.Some? ==> r == Some(items[IndexOfId(items, id).value])
    {
      var i := 0;
      while i < |items|
        invariant 0 <= i <= |items|
        invariant forall j :: 0 <= j < i ==> id.None? || items[j].id != id
      {
        if id.Some? && items[i].id == id {
          assert IndexOfId(items, id) == Some(i);
          return Some(items[i]);
        }
        i := i + 1;
      }
      return None;
    }

    method GetLast() returns (r: Option<Product>)
      ensures items == [] <==> r.None?
      ensures r.Some? ==> r.value == items[|items| - 1]
    {
      if |items| == 0 {
        return None;
      }
      var last: Option<Product> := None;
      for i := 0 to |items|
        invariant i > 0 ==> last == Some(items[i - 1])
      {
        last := Some(items[i]);
      }
      return last;
    }

    /** PriorityQueue.add on the store's queue. */
    method Offer(x: Product) returns (fault: Option<Fault>)
      modifies this`items
      ensures (fault, items) == QueueAdd(old(items), x)
    {
      if AddThrows(items, x) {
        return Some(NullPointer);
      }
      items := items + [x];
      return None;
    }

    /** setCollection: clear, then addAll, which stops at the first add that throws. */
    method SetCollection(list: seq<Product>) returns (fault: Option<Fault>)
      modifies this`items
      ensures (fault, items) == Refill([], list)
    {
      items := [];
      var i := 0;
      while i < |list|
        invariant i <= |list|
        invariant Refill([], list) == Refill(items, list[i..])
      {
        assert list[i..][0] == list[i] && list[i..][1..] == list[i + 1..];
        fault := Offer(list[i]);
        if fault.Some? {
          return;
        }
        i := i + 1;
      }
      return None;
    }

    /**
     * sortCollection: stream().sorted(by name), then setCollection. Over a
     * comparable queue nothing throws and the contents end up sorted by name.
     */
    method SortCollection() returns (fault: Option<Fault>)
      modifies this`items
      ensures (fault, items) == Refill([], SortByName(old(items)))
      ensures old(QueueComparable(items)) ==> fault.None? && items == SortByName(old(items))
      ensures multiset(items) <= multiset(old(items))
      ensures old(Valid()) ==> Valid()
    {
      var before := items;
      var sorted := SortByName(items);
      SortPermutation(items);
      ComparableKept(before, sorted);
      RefillComparable([], sorted);
      assert [] + sorted == sorted;
      fault := SetCollection(sorted);
      RefillKept([], sorted);
      if Identified(before) {
        IdentifiedKept(before, items);
      }
      ComparableKept(before, items);
    }

    /** Base addToCollection: add, sort, and report the element's id; the username is unused. */
    method AddSorted(element: Product) returns (r: Outcome<Option<int>>)
      modifies this`items
      ensures (r, items) == BaseAdd(old(items), element)
    {
      var fault := Offer(element);
      if fault.Some? {
        return Thrown(fault.value);
      }
      fault := SortCollection();
      if fault.Some? {
        return Thrown(fault.value);
      }
      return Done(element.id);
    }

    method AddToCollection(username: Option<string>, element: Product, insert: Product -> int) returns (r: Outcome<int>)
      requires Valid()
      modifies this`items
      ensures Valid()
      ensures (r, items) == StoreAdd(old(items), username, element, insert)
    {
      var owned := element.(username := username);
      var id := insert(owned);
      if id < 0 {
        return Done(id);
      }
      owned := owned.(id := Some(id));
      BaseAddContract(items, owned);
      QueueAddComparable(items, owned);
      SortPermutation(items + [owned]);
      ComparableKept(items + [owned], SortByName(items + [owned]));
      assert Identified(items + [owned]) by {
        assert forall k :: 0 <= k < |items| ==> (items + [owned])[k] == items[k];
      }
      IdentifiedKept(items + [owned], SortByName(items + [owned]));
      var added := AddSorted(owned);
      if added.Thrown? {
        return Thrown(added.fault);
      }
      return Done(id);
    }

    method RemoveFromCollection(element: Option<Product>, username: Option<string>, delete: int -> Deletion)
      returns (r: Outcome<bool>)
      requires Valid()
      modifies this`items
      ensures Valid()
      ensures (r, items) == StoreRemove(old(items), element, username, delete)
    {
      if element.None? {
        return Done(false);
      }
      var e := element.value;
      if e.username.None? {
        return Thrown(NullPointer);
      }
      if e.username != username {
        return Done(false);
      }
      if e.id.None? || delete(e.id.value) != Deleted {
        return Done(false);
      }
      var k := FindEqual(items, e);
      if k.Some? {
        assert items == items[..k.value] + [items[k.value]] + items[k.value + 1..];
        IdentifiedKept(items, RemoveFirstEqual(items, e));
        ComparableKept(items, RemoveFirstEqual(items, e));
      }
      var found := k.Some?;
      items := RemoveFirstEqual(items, e);
      return Done(found);
    }

    method ClearCollection(username: Option<string>) returns (fault: Option<Fault>)
      requires Valid()
      modifies this`items
      ensures Valid()
      ensures (fault, items) == StoreClear(old(items), username)
    {
      if username.None? {
        if |items| == 0 {
          return None;
        }
        return Some(NullPointer);
      }
      forall x | true
        ensures multiset(WithoutOwner(items, username.value))[x] <= multiset(items)[x]
      {
        WithoutOwnerContents(items, username.value, x);
      }
      IdentifiedKept(items, WithoutOwner(items, username.value));
      ComparableKept(items, WithoutOwner(items, username.value));
      items := WithoutOwner(items, username.value);
      return None;
    }

    /** updateInCollection: removeIf by id, then, only if something went, add the new element. */
    method UpdateInCollection(newElement: Product) returns (fault: Option<Fault>)
      requires Valid()
      modifies this`items
      ensures Valid()
      ensures (fault, items) == UpdatedWith(old(items), newElement)
    {
      if IndexOfId(items, newElement.id).Some? {
        var rest := WithoutId(items, newElement.id);
        forall x | true
          ensures multiset(rest)[x] <= multiset(items)[x]
        {
          WithoutIdContents(items, newElement.id, x);
        }
        IdentifiedKept(items, rest);
        ComparableKept(items, rest);
        items := rest;
        QueueAddComparable(items, newElement);
        assert Identified(items + [newElement]) by {
          assert forall k :: 0 <= k < |items| ==> (items + [newElement])[k] == items[k];
        }
        fault := Offer(newElement);
      } else {
        fault := None;
      }
    }
  }
}
