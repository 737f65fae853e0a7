/**
 * The commands that change the product collection: add, add_if_min, update,
 * remove_by_id, remove_greater, remove_lower and clear. Each is a function
 * from the request and the contents before to the reply and the contents
 * after, and a method that runs the same guard chain against the store.
 */
module StoreCommands {
  import opened Util
  import opened Models
  import opened Envelope
  import opened Collection
  import opened CommandBase

  /** The product a request carries, when its data is one. */
  predicate CarriesProduct(req: RequestView)
  {
    req.data.Some? && req.data.value.ProductData?
  }

  // ---------------------------------------------------------------------
  // add

  /**
   * Add.execute: the store add runs with the requester as owner; an
   * exception from it is reported by its message, and an id below 1 as a
   * failure.
   */
  function AddResult(req: RequestView, items: seq<Product>, insert: Product -> int): (Reply, seq<Product>)
  {
    if req.data.None? then (Responded(Fail(WRONG_COUNT)), items)
    else if !req.data.value.ProductData? then (Responded(Caught(ClassCast)), items)
    else
      var (r, items') := StoreAdd(items, req.login, req.data.value.product, insert);
      if r.Thrown? then (Responded(Caught(r.fault)), items')
      else if r.value < 1 then (Responded(Fail("Элемент не добавлен")), items')
      else (Responded(Response(true, Some("Элемент успешно добавлен!"), Some(LongData(r.value)))), items')
  }

  /** Without a product nothing is stored and the reply is a failure. */
  lemma AddRejectsMissingProduct(req: RequestView, items: seq<Product>, insert: Product -> int)
    requires !CarriesProduct(req)
    ensures AddResult(req, items, insert).1 == items
    ensures AddResult(req, items, insert).0.Responded?
    ensures !AddResult(req, items, insert).0.response.success
    ensures req.data.None? ==> AddResult(req, items, insert).0.response == Respond(false, Some(WRONG_COUNT))
  {
  }

  /**
   * With a product: the reply succeeds exactly when the database id is at
   * least 1 and the queue add does not throw, and then carries that id.
   * Memory gains the product with the requester as owner and that id
   * exactly when the id is not negative and the add does not throw; a
   * throwing add is reported by the NullPointerException's null message,
   * with the row already in the database.
   */
  lemma AddStoresOwnedProduct(req: RequestView, items: seq<Product>, insert: Product -> int)
    requires CarriesProduct(req)
    ensures var e := req.data.value.product;
      var owned := e.(username := req.login);
      var id := insert(owned);
      var (reply, items') := AddResult(req, items, insert);
      reply.Responded?
      && (reply.response.success <==> id >= 1 && !AddThrows(items, e))
      && (reply.response.success ==> reply.response.data == Some(LongData(id)))
      && (id < 1 && (id < 0 || !AddThrows(items, e)) ==> reply.response == Fail("Элемент не добавлен"))
      && (id >= 0 && AddThrows(items, e) ==> reply.response == Caught(NullPointer))
      && (id < 0 || AddThrows(items, e) ==> items' == items)
      && (id >= 0 && !AddThrows(items, e) ==> multiset(items') == multiset(items) + multiset{owned.(id := Some(id))})
  {
    StoreAddContract(items, req.login, req.data.value.product, insert);
  }

  /**
   * Into a non-empty collection a product without a price is never stored:
   * the queue add throws, and the reply is a failure.
   */
  lemma AddUnpricedRefused(req: RequestView, items: seq<Product>, insert: Product -> int)
    requires CarriesProduct(req) && items != [] && req.data.value.product.price.None?
    ensures AddResult(req, items, insert).1 == items
    ensures !AddResult(req, items, insert).0.response.success
    ensures insert(req.data.value.product.(username := req.login)) >= 0 ==>
      AddResult(req, items, insert).0 == Responded(Caught(NullPointer))
  {
    StoreAddContract(items, req.login, req.data.value.product, insert);
  }

  /** An id of 0 is stored in memory although the reply says nothing was added. */
  lemma AddZeroIdStoredButRefused(req: RequestView, items: seq<Product>, insert: Product -> int)
    requires CarriesProduct(req) && insert(req.data.value.product.(username := req.login)) == 0
    requires !AddThrows(items, req.data.value.product)
    ensures !AddResult(req, items, insert).0.response.success
    ensures |AddResult(req, items, insert).1| == |items| + 1
  {
    var owned := req.data.value.product.(username := req.login);
    StoreAddContract(items, req.login, req.data.value.product, insert);
    assert |multiset(AddResult(req, items, insert).1)| == |multiset(items) + multiset{owned.(id := Some(0))}|;
  }

  method ExecuteAdd(store: ProductCollectionManager, req: RequestView, insert: Product -> int) returns (reply: Reply)
    requires store.Valid()
    modifies store`items
    ensures store.Valid()
    ensures (reply, store.items) == AddResult(req, old(store.items), insert)
  {
    if req.data.None? {
      return Responded(Fail(WRONG_COUNT));
    }
    if !req.data.value.ProductData? {
      return Responded(Caught(ClassCast));
    }
    var r := store.AddToCollection(req.login, req.data.value.product, insert);
    if r.Thrown? {
      return Responded(Caught(r.fault));
    }
    if r.value < 1 {
      return Responded(Fail("Элемент не добавлен"));
    }
    return Responded(Response(true, Some("Элемент успешно добавлен!"), Some(LongData(r.value))));
  }

  // ---------------------------------------------------------------------
  // add_if_min

  const NOT_MINIMAL: string := "Продукт не добавлен, значение не минимальное"

  /**
   * Stream.min(compareTo) on a non-empty collection, as the position of the
   * element it picks: the running minimum is kept unless the next element
   * compares strictly below it; a null price on a compared pair throws.
   */
  function MinIndex(s: seq<Product>): (r: Outcome<nat>)
    requires s != []
    ensures r.Done? ==> r.value < |s|
  {
    if |s| == 1 then Done(0)
    else
      var r0 := MinIndex(s[..|s| - 1]);
      if r0.Thrown? then r0
      else
        var c := CompareTo(s[r0.value], s[|s| - 1]);
        if c.None? then Thrown(NullPointer)
        else if c.value <= 0 then r0
        else Done(|s| - 1)
  }

  /**
   * The minimum is found exactly when there is one element or every price
   * is present; it is then the first element with the lowest price.
   */
  lemma {:induction false} MinIndexContract(s: seq<Product>)
    requires s != []
    ensures MinIndex(s).Done? <==> |s| == 1 || AllPriced(s)
    ensures MinIndex(s).Thrown? ==> MinIndex(s).fault == NullPointer
    ensures |s| == 1 ==> MinIndex(s) == Done(0)
    ensures AllPriced(s) ==>
      var m := MinIndex(s).value;
      (forall k :: 0 <= k < |s| ==> s[m].price.value <= s[k].price.value)
      && (forall k :: 0 <= k < m ==> s[k].price.value > s[m].price.value)
  {
    if |s| > 1 {
      var t := s[..|s| - 1];
      MinIndexContract(t);
      assert forall k :: 0 <= k < |t| ==> t[k] == s[k];
      if AllPriced(s) {
        assert AllPriced(t);
      } else if MinIndex(t).Done? {
        var j :| 0 <= j < |s| && s[j].price.None?;
        if j < |s| - 1 {
          assert t[j].price.None?;
          assert |t| == 1;
          assert j == 0;
        }
      }
    }
  }

  /** AddIfMin.execute over the store's contents. */
  function AddIfMinResult(req: RequestView, items: seq<Product>, insert: Product -> int): (Reply, seq<Product>)
  {
    if req.data.None? then (Responded(Usage(AddIfMinCmd)), items)
    else if !req.data.value.ProductData? then (Responded(Caught(ClassCast)), items)
    else if items == [] then (Responded(Fail(NOT_MINIMAL)), items)
    else
      var e := req.data.value.product;
      var m := MinIndex(items);
      if m.Thrown? then (Responded(Caught(m.fault)), items)
      else
        var c := CompareTo(e, items[m.value]);
        if c.None? then (Responded(Caught(NullPointer)), items)
        else if c.value < 0 then
          var (r, added) := StoreAdd(items, req.login, e, insert);
          if r.Thrown? then (Responded(Caught(r.fault)), added)
          else (Responded(Response(true, Some("Продукт успешно добавлен!"), Some(LongData(r.value)))), SortByName(added))
        else (Responded(Fail(NOT_MINIMAL)), items)
  }

  /**
   * The product goes in only when the collection is non-empty, every price
   * in it is present and the product's price is strictly below all of them;
   * every other outcome is a failure that leaves the collection alone.
   */
  lemma AddIfMinOnlyBelowMinimum(req: RequestView, items: seq<Product>, insert: Product -> int)
    ensures var (reply, items') := AddIfMinResult(req, items, insert);
      reply.Responded?
      && (reply.response.success <==>
            CarriesProduct(req) && items != [] && AllPriced(items) && req.data.value.product.price.Some?
            && forall k :: 0 <= k < |items| ==> req.data.value.product.price.value < items[k].price.value)
      && (!reply.response.success ==> items' == items)
  {
    if CarriesProduct(req) && items != [] {
      var e := req.data.value.product;
      MinIndexContract(items);
      var m := MinIndex(items);
      if m.Done? && |items| == 1 && !AllPriced(items) {
        assert items[0].price.None?;
      }
      StoreAddContract(items, req.login, e, insert);
    }
  }

  /**
   * A successful add_if_min reports whatever id the database gave, even a
   * negative refusal, and then the contents are only re-sorted.
   */
  lemma AddIfMinReportsAnyId(req: RequestView, items: seq<Product>, insert: Product -> int)
    requires AddIfMinResult(req, items, insert).0.Responded?
    requires AddIfMinResult(req, items, insert).0.response.success
    ensures var owned := req.data.value.product.(username := req.login);
      var id := insert(owned);
      var (reply, items') := AddIfMinResult(req, items, insert);
      reply.response.data == Some(LongData(id))
      && (id < 0 ==> items' == SortByName(items))
      && (id >= 0 ==> multiset(items') == multiset(items) + multiset{owned.(id := Some(id))})
      && SortedByName(items')
  {
    var e := req.data.value.product;
    StoreAddContract(items, req.login, e, insert);
    var (r, added) := StoreAdd(items, req.login, e, insert);
    assert r.Done? && AddIfMinResult(req, items, insert) == (Responded(Response(true, Some("Продукт успешно добавлен!"), Some(LongData(r.value)))), SortByName(added));
    SortPermutation(added);
    SortSorted(added);
  }

  method ExecuteAddIfMin(store: ProductCollectionManager, req: RequestView, insert: Product -> int) returns (reply: Reply)
    requires store.Valid()
    modifies store`items
    ensures store.Valid()
    ensures (reply, store.items) == AddIfMinResult(req, old(store.items), insert)
  {
    if req.data.None? {
      return Responded(Usage(AddIfMinCmd));
    }
    if !req.data.value.ProductData? {
      return Responded(Caught(ClassCast));
    }
    if |store.items| == 0 {
      return Responded(Fail(NOT_MINIMAL));
    }
    var e := req.data.value.product;
    var m := MinIndex(store.items);
    if m.Thrown? {
      return Responded(Caught(m.fault));
    }
    var c := CompareTo(e, store.items[m.value]);
    if c.None? {
      return Responded(Caught(NullPointer));
    }
    if c.value < 0 {
      var r := store.AddToCollection(req.login, e, insert);
      if r.Thrown? {
        return Responded(Caught(r.fault));
      }
      var fault := store.SortCollection();
      return Responded(Response(true, Some("Продукт успешно добавлен!"), Some(LongData(r.value))));
    }
    return Responded(Fail(NOT_MINIMAL));
  }

  // ---------------------------------------------------------------------
  // update

  const EMPTY: string := "Коллекция пуста!"
  const NO_SUCH_ID: string := "Элемента с таким ID в коллекции нет!"
  const UNEXPECTED: string := "Произошла непредвиденная ошибка: "

  /**
   * Update.execute: argument shape, emptiness, an element with the new
   * element's id, the same owner as the new element's owner field, a valid
   * new element; then replace and re-sort.
   */
  function UpdateResult(req: RequestView, items: seq<Product>): (Reply, seq<Product>)
  {
    if !CarriesProduct(req) then (Responded(Usage(UpdateCmd)), items)
    else if items == [] then (Responded(Fail(EMPTY)), items)
    else
      var e := req.data.value.product;
      var k := IndexOfId(items, e.id);
      if k.None? then (Responded(Fail(NO_SUCH_ID)), items)
      else if items[k.value].username.None? then (Responded(Fail(UNEXPECTED + TextOf(FaultMessage(NullPointer)))), items)
      else if items[k.value].username != e.username then
        (Responded(Fail("Ошибка доступа: У вас нет доступа к данному элементу.")), items)
      else if !ValidProduct(e) then (Responded(Fail("Поля элемента не валидны! Элемент не обновлен!")), items)
      else
        var (fault, updated) := UpdatedWith(items, e);
        if fault.Some? then (Responded(Fail(UNEXPECTED + TextOf(FaultMessage(fault.value)))), updated)
        else (Responded(Ok("Элемент успешно обновлен.")), SortByName(updated))
  }

  /** Every check of Update.execute passes, in order, for the product the request carries. */
  predicate UpdateChecks(req: RequestView, items: seq<Product>)
  {
    CarriesProduct(req) && IndexOfId(items, req.data.value.product.id).Some?
    && items[IndexOfId(items, req.data.value.product.id).value].username.Some?
    && items[IndexOfId(items, req.data.value.product.id).value].username == req.data.value.product.username
    && ValidProduct(req.data.value.product)
  }

  /**
   * The update succeeds exactly when every check passes and the new
   * element's add does not throw; a failed check changes nothing, while a
   * throwing add leaves the old record removed and reports the unexpected
   * error with a null message.
   */
  lemma UpdateOutcome(req: RequestView, items: seq<Product>)
    ensures var (reply, items') := UpdateResult(req, items);
      reply.Responded?
      && (reply.response.success <==>
            UpdateChecks(req, items)
            && !AddThrows(WithoutId(items, req.data.value.product.id), req.data.value.product))
      && (!UpdateChecks(req, items) ==> items' == items)
      && (UpdateChecks(req, items) && AddThrows(WithoutId(items, req.data.value.product.id), req.data.value.product) ==>
            reply.response == Fail(UNEXPECTED + "null") && items' == WithoutId(items, req.data.value.product.id))
  {
  }

  /**
   * Over a store that keeps its invariant, updating one's own record to a
   * product without a price, while another record is stored, loses the
   * record: removeIf has already dropped it when the add throws.
   */
  lemma UpdateToNullPriceLosesRecord(req: RequestView, items: seq<Product>)
    requires QueueComparable(items) && UpdateChecks(req, items)
    requires req.data.value.product.price.None?
    requires exists k :: 0 <= k < |items| && items[k].id != req.data.value.product.id
    ensures var (reply, items') := UpdateResult(req, items);
      reply == Responded(Fail(UNEXPECTED + "null"))
      && |items'| < |items|
      && forall k :: 0 <= k < |items'| ==> items'[k].id != req.data.value.product.id
  {
    var e := req.data.value.product;
    var w := WithoutId(items, e.id);
    var k :| 0 <= k < |items| && items[k].id != e.id;
    var j := IndexOfId(items, e.id).value;
    WithoutIdContents(items, e.id, items[k]);
    WithoutIdContents(items, e.id, items[j]);
    assert items[k] in multiset(w);
    UpdateThrowsOnNullPrice(items, e);
    assert multiset(items)[items[j]] >= 1;
    WithoutIdShorter(items, e.id);
    forall i | 0 <= i < |w|
      ensures w[i].id != e.id
    {
      assert w[i] in multiset(w);
      WithoutIdContents(items, e.id, w[i]);
    }
  }

  /**
   * After a successful update the old records with that id are gone and the
   * new one is there once, every other record is kept and the result is
   * sorted.
   */
  lemma UpdateContents(req: RequestView, items: seq<Product>, x: Product)
    requires UpdateResult(req, items).0.Responded? && UpdateResult(req, items).0.response.success
    ensures var items' := UpdateResult(req, items).1;
      var e := req.data.value.product;
      SortedByName(items')
      && multiset(items')[e] == 1
      && (x != e ==> multiset(items')[x] == if x.id == e.id then 0 else multiset(items)[x])
  {
    var e := req.data.value.product;
    var updated := UpdatedWith(items, e).1;
    assert UpdateResult(req, items).1 == SortByName(updated);
    UpdatedWithContents(items, e, x);
    SortPermutation(updated);
    SortSorted(updated);
  }

  /**
   * The owner check compares the stored owner with the owner field of the
   * new element; the requester's login plays no part in the outcome.
   */
  lemma UpdateIgnoresLogin(req: RequestView, items: seq<Product>, login: Option<string>)
    ensures UpdateResult(req.(login := login), items) == UpdateResult(req, items)
  {
  }

  method ExecuteUpdate(store: ProductCollectionManager, req: RequestView) returns (reply: Reply)
    requires store.Valid()
    modifies store`items
    ensures store.Valid()
    ensures (reply, store.items) == UpdateResult(req, old(store.items))
  {
    if !CarriesProduct(req) {
      return Responded(Usage(UpdateCmd));
    }
    var e := req.data.value.product;
    if |store.items| == 0 {
      return Responded(Fail(EMPTY));
    }
    var k := IndexOfId(store.items, e.id);
    if k.None? {
      return Responded(Fail(NO_SUCH_ID));
    }
    var existing := store.items[k.value];
    if existing.username.None? {
      return Responded(Fail(UNEXPECTED + TextOf(FaultMessage(NullPointer))));
    }
    if existing.username != e.username {
      return Responded(Fail("Ошибка доступа: У вас нет доступа к данному элементу."));
    }
    if !ValidProduct(e) {
      return Responded(Fail("Поля элемента не валидны! Элемент не обновлен!"));
    }
    var fault := store.UpdateInCollection(e);
    if fault.Some? {
      return Responded(Fail(UNEXPECTED + TextOf(FaultMessage(fault.value))));
    }
    fault := store.SortCollection();
    return Responded(Ok("Элемент успешно обновлен."));
  }

  // ---------------------------------------------------------------------
  // remove_by_id

  /**
   * RemoveById.execute: a Long argument, a non-empty collection, the first
   * element with that id, then the store remove with the requester's login.
   */
  function RemoveByIdResult(req: RequestView, items: seq<Product>, delete: int -> Deletion): (Reply, seq<Product>)
  {
    if req.data.None? || !req.data.value.LongData? then (Responded(Usage(RemoveByIdCmd)), items)
    else if items == [] then (Responded(Fail(EMPTY)), items)
    else
      var k := IndexOfId(items, Some(req.data.value.long));
      if k.None? then (Responded(Fail(NO_SUCH_ID)), items)
      else
        var (r, items') := StoreRemove(items, Some(items[k.value]), req.login, delete);
        if r.Thrown? then (Responded(Fail(UNEXPECTED + TextOf(FaultMessage(r.fault)))), items')
        else if !r.value then (Responded(Fail("У вас нет доступа к этому элементу!")), items')
        else (Responded(Ok("Элемент успешно удален.")), items')
  }

  /** The first record with the id exists, and the requester owns it. */
  predicate OwnsId(items: seq<Product>, id: int, login: Option<string>)
  {
    var k := IndexOfId(items, Some(id));
    k.Some? && items[k.value].username.Some? && items[k.value].username == login
  }

  /**
   * The removal succeeds exactly when a record has the id, the requester
   * owns it and the database confirms the delete; every failure leaves
   * memory alone.
   */
  lemma RemoveByIdOutcome(req: RequestView, items: seq<Product>, delete: int -> Deletion)
    ensures RemoveByIdResult(req, items, delete).0.Responded?
    ensures RemoveByIdResult(req, items, delete).0.response.success <==>
      req.data.Some? && req.data.value.LongData? && OwnsId(items, req.data.value.long, req.login)
      && delete(req.data.value.long) == Deleted
    ensures !RemoveByIdResult(req, items, delete).0.response.success ==> RemoveByIdResult(req, items, delete).1 == items
  {
    if req.data.Some? && req.data.value.LongData? && items != [] {
      var k := IndexOfId(items, Some(req.data.value.long));
      if k.Some? {
        var e := items[k.value];
        assert FindEqual(items, e).Some? by {
          assert SameFields(items[k.value], e);
        }
      }
    }
  }

  /** A successful removal takes exactly one record out of memory, one equal to the record with the id. */
  lemma RemoveByIdRemovesOne(req: RequestView, items: seq<Product>, delete: int -> Deletion)
    requires RemoveByIdResult(req, items, delete).0.Responded?
    requires RemoveByIdResult(req, items, delete).0.response.success
    ensures var items' := RemoveByIdResult(req, items, delete).1;
      var e := items[IndexOfId(items, Some(req.data.value.long)).value];
      |items'| == |items| - 1
      && exists j :: 0 <= j < |items| && SameFields(items[j], e) && multiset(items') + multiset{items[j]} == multiset(items)
  {
    var k := IndexOfId(items, Some(req.data.value.long));
    var e := items[k.value];
    assert FindEqual(items, e).Some? by {
      assert SameFields(items[k.value], e);
    }
    assert RemoveByIdResult(req, items, delete).1 == RemoveFirstEqual(items, e);
    var j := FindEqual(items, e).value;
    RemoveFirstEqualContents(items, e);
    assert SameFields(items[j], e);
  }

  method ExecuteRemoveById(store: ProductCollectionManager, req: RequestView, delete: int -> Deletion) returns (reply: Reply)
    requires store.Valid()
    modifies store`items
    ensures store.Valid()
    ensures (reply, store.items) == RemoveByIdResult(req, old(store.items), delete)
  {
    if req.data.None? || !req.data.value.LongData? {
      return Responded(Usage(RemoveByIdCmd));
    }
    if |store.items| == 0 {
      return Responded(Fail(EMPTY));
    }
    var k := IndexOfId(store.items, Some(req.data.value.long));
    if k.None? {
      return Responded(Fail(NO_SUCH_ID));
    }
    var r := store.RemoveFromCollection(Some(store.items[k.value]), req.login, delete);
    if r.Thrown? {
      return Responded(Fail(UNEXPECTED + TextOf(FaultMessage(r.fault))));
    }
    if !r.value {
      return Responded(Fail("У вас нет доступа к этому элементу!"));
    }
    return Responded(Ok("Элемент успешно удален."));
  }

  // ---------------------------------------------------------------------
  // remove_greater and remove_lower

  /** Which side of the pivot a command removes. */
  datatype Side = Greater | Lower

  /** compareTo(pivot) > 0 for remove_greater, < 0 for remove_lower; both prices present. */
  predicate Beyond(x: Product, pivot: Product, side: Side)
  {
    x.price.Some? && pivot.price.Some?
    && (if side == Greater then x.price.value > pivot.price.value else x.price.value < pivot.price.value)
  }

  /** The stream filter: every element is compared with the pivot, in order; a null price throws. */
  function Candidates(s: seq<Product>, pivot: Product, side: Side): Outcome<seq<Product>>
  {
    if s == [] then Done([])
    else
      var r0 := Candidates(s[..|s| - 1], pivot, side);
      if r0.Thrown? then r0
      else
        var c := CompareTo(s[|s| - 1], pivot);
        if c.None? then Thrown(NullPointer)
        else if (side == Greater && c.value > 0) || (side == Lower && c.value < 0) then Done(r0.value + [s[|s| - 1]])
        else r0
  }

  /** The filter throws exactly when the collection is non-empty and some compared price is missing. */
  lemma {:induction false} CandidatesThrow(s: seq<Product>, pivot: Product, side: Side)
    ensures Candidates(s, pivot, side).Thrown? <==> s != [] && (pivot.price.None? || !AllPriced(s))
  {
    if s != [] {
      var t := s[..|s| - 1];
      CandidatesThrow(t, pivot, side);
      if AllPriced(s) {
        assert AllPriced(t);
      } else if AllPriced(t) {
        var j :| 0 <= j < |s| && s[j].price.None?;
        assert j == |s| - 1;
      } else {
        var j :| 0 <= j < |t| && t[j].price.None?;
        assert s[j].price.None?;
      }
    }
  }

  /** Otherwise the candidates are exactly the elements beyond the pivot, each as often as in the collection. */
  lemma {:induction false} CandidatesExact(s: seq<Product>, pivot: Product, side: Side, x: Product)
    requires Candidates(s, pivot, side).Done?
    ensures multiset(Candidates(s, pivot, side).value)[x] == if Beyond(x, pivot, side) then multiset(s)[x] else 0
  {
    if s != [] {
      var t := s[..|s| - 1];
      var last := s[|s| - 1];
      CandidatesExact(t, pivot, side, x);
      assert s == t + [last];
      assert multiset(s)[x] == multiset(t)[x] + multiset([last])[x];
    }
  }

  /** Every candidate lies beyond the pivot, so nothing else is ever handed to the store remove. */
  lemma {:induction false} CandidatesBeyond(s: seq<Product>, pivot: Product, side: Side)
    requires Candidates(s, pivot, side).Done?
    ensures forall c :: c in Candidates(s, pivot, side).value ==> Beyond(c, pivot, side)
  {
    if s != [] {
      CandidatesBeyond(s[..|s| - 1], pivot, side);
    }
  }

  /**
   * The removal loop as a function of how many candidates it has handled:
   * the count of removes that returned true, or the first exception, and
   * the contents after.
   */
  function RemoveEach(s: seq<Product>, cands: seq<Product>, login: Option<string>, delete: int -> Deletion)
    : (Outcome<nat>, seq<Product>)
  {
    if cands == [] then (Done(0), s)
    else
      var (r0, s0) := RemoveEach(s, cands[..|cands| - 1], login, delete);
      if r0.Thrown? then (r0, s0)
      else
        var (r1, s1) := StoreRemove(s0, Some(cands[|cands| - 1]), login, delete);
        if r1.Thrown? then (Thrown(r1.fault), s1)
        else (Done(r0.value + if r1.value then 1 else 0), s1)
  }

  /** The count never exceeds the number of candidates. */
  lemma {:induction false} RemoveEachCount(s: seq<Product>, cands: seq<Product>, login: Option<string>, delete: int -> Deletion)
    ensures RemoveEach(s, cands, login, delete).0.Done? ==> RemoveEach(s, cands, login, delete).0.value <= |cands|
  {
    if cands != [] {
      RemoveEachCount(s, cands[..|cands| - 1], login, delete);
    }
  }

  /** One store remove spares x unless the element removed is the requester's and has x's fields. */
  lemma StoreRemoveSpares(s: seq<Product>, c: Product, login: Option<string>, delete: int -> Deletion, x: Product)
    requires c.username == login ==> !SameFields(c, x)
    ensures multiset(StoreRemove(s, Some(c), login, delete).1)[x] == multiset(s)[x]
  {
    if c.username.Some? && c.username == login && c.id.Some? && delete(c.id.value) == Deleted && FindEqual(s, c).Some? {
      RemoveFirstEqualContents(s, c);
      var k := FindEqual(s, c).value;
      assert s[k] != x;
    }
  }

  /**
   * A record survives, as often as before, unless some candidate owned by
   * the requester has the same fields: removal goes by the requester's login
   * and by field equality only.
   */
  lemma {:induction false} RemoveEachSpares(s: seq<Product>, cands: seq<Product>, login: Option<string>,
                                            delete: int -> Deletion, x: Product)
    requires forall c :: c in cands && c.username == login ==> !SameFields(c, x)
    ensures multiset(RemoveEach(s, cands, login, delete).1)[x] == multiset(s)[x]
  {
    if cands != [] {
      var init := cands[..|cands| - 1];
      var c := cands[|cands| - 1];
      assert forall d :: d in init ==> d in cands;
      RemoveEachSpares(s, init, login, delete, x);
      var p := RemoveEach(s, init, login, delete);
      if p.0.Done? {
        StoreRemoveSpares(p.1, c, login, delete, x);
      }
    }
  }

  /** After the first exception the loop stops: handling more candidates changes nothing. */
  lemma {:induction false} RemoveEachStops(s: seq<Product>, cands: seq<Product>, login: Option<string>,
                                           delete: int -> Deletion, i: nat)
    requires i <= |cands| && RemoveEach(s, cands[..i], login, delete).0.Thrown?
    ensures RemoveEach(s, cands, login, delete) == RemoveEach(s, cands[..i], login, delete)
  {
    if i < |cands| {
      assert cands[..|cands| - 1][..i] == cands[..i];
      RemoveEachStops(s, cands[..|cands| - 1], login, delete, i);
    } else {
      assert cands[..i] == cands;
    }
  }

  /**
   * A candidate whose store remove goes ahead: the requester's own record,
   * with an id, whose delete the database confirms.
   */
  predicate Confirmed(c: Product, login: Option<string>, delete: int -> Deletion)
  {
    c.username.Some? && c.username == login && c.id.Some? && delete(c.id.value) == Deleted
  }

  /** The candidates whose store remove goes ahead, in order. */
  function ConfirmedIn(cands: seq<Product>, login: Option<string>, delete: int -> Deletion): seq<Product>
  {
    if cands == [] then []
    else
      var init := ConfirmedIn(cands[..|cands| - 1], login, delete);
      if Confirmed(cands[|cands| - 1], login, delete) then init + [cands[|cands| - 1]] else init
  }

  lemma {:induction false} ConfirmedInExact(cands: seq<Product>, login: Option<string>, delete: int -> Deletion, x: Product)
    ensures multiset(ConfirmedIn(cands, login, delete))[x] == if Confirmed(x, login, delete) then multiset(cands)[x] else 0
  {
    if cands != [] {
      var init := cands[..|cands| - 1];
      ConfirmedInExact(init, login, delete, x);
      assert cands == init + [cands[|cands| - 1]];
    }
  }

  lemma {:induction false} ConfirmedInFields(cands: seq<Product>, login: Option<string>, delete: int -> Deletion)
    ensures FieldsOf(ConfirmedIn(cands, login, delete)) <= FieldsOf(cands)
  {
    if cands != [] {
      var init, c := cands[..|cands| - 1], cands[|cands| - 1];
      var r0 := ConfirmedIn(init, login, delete);
      ConfirmedInFields(init, login, delete);
      assert FieldsOf(cands) == FieldsOf(init) + multiset{Fields(c)};
      if Confirmed(c, login, delete) {
        FieldsOfSnoc(r0, c);
        SubAdd(FieldsOf(r0), FieldsOf(init), multiset{Fields(c)});
      } else {
        SubAdd(FieldsOf(r0), FieldsOf(init), multiset{Fields(c)});
      }
    }
  }

  /**
   * Handed candidates whose fields all occur in the contents, the loop
   * removes one record per confirmed candidate and counts exactly those:
   * the records taken out have the confirmed candidates' fields, though
   * not necessarily their ids or owners.
   */
  lemma {:induction false} RemoveEachExact(s: seq<Product>, cands: seq<Product>, login: Option<string>, delete: int -> Deletion)
    requires FieldsOf(cands) <= FieldsOf(s)
    requires RemoveEach(s, cands, login, delete).0.Done?
    ensures var (r, s') := RemoveEach(s, cands, login, delete);
      var gone := ConfirmedIn(cands, login, delete);
      r.value == |gone| && FieldsOf(s') + FieldsOf(gone) == FieldsOf(s)
  {
    if cands != [] {
      var init, c := cands[..|cands| - 1], cands[|cands| - 1];
      assert cands == init + [c];
      FieldsOfSnoc(init, c);
      assert FieldsOf(init) <= FieldsOf(cands);
      assert RemoveEach(s, init, login, delete).0.Done?;
      RemoveEachExact(s, init, login, delete);
      var (r0, s0) := RemoveEach(s, init, login, delete);
      var gone0 := ConfirmedIn(init, login, delete);
      if Confirmed(c, login, delete) {
        ConfirmedInFields(init, login, delete);
        StoreRemoveConfirmed(s0, c, login, delete, FieldsOf(init), gone0, FieldsOf(s));
        assert RemoveEach(s, cands, login, delete).0.value == r0.value + 1;
        assert RemoveEach(s, cands, login, delete).1 == RemoveFirstEqual(s0, c);
        assert ConfirmedIn(cands, login, delete) == gone0 + [c];
      } else {
        var (r1, s1) := StoreRemove(s0, Some(c), login, delete);
        assert r1.Done?;
        StoreRemoveUnconfirmed(s0, c, login, delete);
        assert RemoveEach(s, cands, login, delete) == (Done(r0.value), s0);
        assert ConfirmedIn(cands, login, delete) == gone0;
      }
    }
  }

  /**
   * One confirmed candidate whose fields still occur: the store remove
   * takes one record with them out, which moves one occurrence of them from
   * what is left to what is gone.
   */
  lemma StoreRemoveConfirmed(s0: seq<Product>, c: Product, login: Option<string>, delete: int -> Deletion,
                             before: multiset<Product>, gone: seq<Product>, total: multiset<Product>)
    requires Confirmed(c, login, delete)
    requires FieldsOf(gone) <= before
    requires before + multiset{Fields(c)} <= total
    requires FieldsOf(s0) + FieldsOf(gone) == total
    ensures StoreRemove(s0, Some(c), login, delete) == (Done(true), RemoveFirstEqual(s0, c))
    ensures FieldsOf(RemoveFirstEqual(s0, c)) + FieldsOf(gone + [c]) == total
  {
    var m := Fields(c);
    var lhs := before + multiset{m};
    assert lhs[m] == before[m] + 1;
    assert lhs[m] <= total[m] == FieldsOf(s0)[m] + FieldsOf(gone)[m];
    assert FieldsOf(gone)[m] <= before[m];
    FieldsOfFind(s0, c);
    FieldsOfRemove(s0, c);
    FieldsOfSnoc(gone, c);
    MovedOne(FieldsOf(RemoveFirstEqual(s0, c)), FieldsOf(gone), multiset{m}, FieldsOf(s0), total);
  }

  /** A candidate that is not confirmed leaves the contents alone, when the owner check does not throw. */
  lemma StoreRemoveUnconfirmed(s0: seq<Product>, c: Product, login: Option<string>, delete: int -> Deletion)
    requires !Confirmed(c, login, delete) && StoreRemove(s0, Some(c), login, delete).0.Done?
    ensures StoreRemove(s0, Some(c), login, delete) == (Done(false), s0)
  {
  }

  lemma SubAdd(a: multiset<Product>, b: multiset<Product>, m: multiset<Product>)
    requires a <= b
    ensures a + m <= b + m && a <= b + m
  {
  }

  lemma MovedOne(left: multiset<Product>, gone: multiset<Product>, m: multiset<Product>,
                 before: multiset<Product>, total: multiset<Product>)
    requires left + m == before && before + gone == total
    ensures left + (gone + m) == total
  {
  }

  /**
   * The loop can spare a confirmed candidate: removal goes by field
   * equality, so the requester's own twin whose delete failed is taken out
   * in its place.
   */
  lemma RemoveEachCanSpareConfirmed(delete: int -> Deletion)
    requires delete(1) == Deleted && delete(2) == NotDeleted
    ensures var twin := Product(Some(2), Some("ann"), Some("tea"), None, None, Some(5), None, None);
      var mine := twin.(id := Some(1));
      RemoveEach([twin, mine], [twin, mine], Some("ann"), delete) == (Done(1), [mine])
  {
    var twin := Product(Some(2), Some("ann"), Some("tea"), None, None, Some(5), None, None);
    var mine := twin.(id := Some(1));
    var login := Some("ann");
    assert [twin, mine][..1] == [twin];
    assert [twin][..0] == [];
    assert RemoveEach([twin, mine], [twin], login, delete) == (Done(0), [twin, mine]);
    assert FindEqual([twin, mine], mine) == Some(0);
    assert [twin, mine][1..] == [mine];
    assert RemoveFirstEqual([twin, mine], mine) == [mine];
  }

  /** The filter's candidates have fields that occur in the collection. */
  lemma {:induction false} CandidatesFields(s: seq<Product>, pivot: Product, side: Side)
    requires Candidates(s, pivot, side).Done?
    ensures FieldsOf(Candidates(s, pivot, side).value) <= FieldsOf(s)
  {
    if s != [] {
      var init, last := s[..|s| - 1], s[|s| - 1];
      CandidatesFields(init, pivot, side);
      var r0 := Candidates(init, pivot, side).value;
      var fs := FieldsOf(s);
      assert fs == FieldsOf(init) + multiset{Fields(last)};
      if Candidates(s, pivot, side).value != r0 {
        assert Candidates(s, pivot, side).value == r0 + [last];
        FieldsOfSnoc(r0, last);
      }
    }
  }

  /** A record remove_greater or remove_lower takes out: beyond the pivot, and confirmed. */
  predicate Removable(x: Product, pivot: Product, side: Side, login: Option<string>, delete: int -> Deletion)
  {
    Beyond(x, pivot, side) && Confirmed(x, login, delete)
  }

  /** The removable records of a collection, in order. */
  function RemovableIn(s: seq<Product>, pivot: Product, side: Side, login: Option<string>, delete: int -> Deletion)
    : seq<Product>
  {
    if s == [] then []
    else
      var init := RemovableIn(s[..|s| - 1], pivot, side, login, delete);
      if Removable(s[|s| - 1], pivot, side, login, delete) then init + [s[|s| - 1]] else init
  }

  lemma {:induction false} RemovableInExact(s: seq<Product>, pivot: Product, side: Side, login: Option<string>,
                                            delete: int -> Deletion, x: Product)
    ensures multiset(RemovableIn(s, pivot, side, login, delete))[x]
      == if Removable(x, pivot, side, login, delete) then multiset(s)[x] else 0
  {
    if s != [] {
      var init := s[..|s| - 1];
      RemovableInExact(init, pivot, side, login, delete, x);
      assert s == init + [s[|s| - 1]];
    }
  }

  /** When every record with fields m is removable, every occurrence of m is in the filter. */
  lemma {:induction false} RemovableInAll(s: seq<Product>, pivot: Product, side: Side, login: Option<string>,
                                          delete: int -> Deletion, m: Product)
    requires forall k :: 0 <= k < |s| && Fields(s[k]) == m ==> Removable(s[k], pivot, side, login, delete)
    ensures FieldsOf(RemovableIn(s, pivot, side, login, delete))[m] == FieldsOf(s)[m]
  {
    if s != [] {
      var init, last := s[..|s| - 1], s[|s| - 1];
      RemovableInAll(init, pivot, side, login, delete, m);
      FieldsOfSnoc(RemovableIn(init, pivot, side, login, delete), last);
    }
  }

  const GREATER_TAIL: string := " элементов, превышающих заданный."
  const LOWER_TAIL: string := " элементов, меньших, чем заданный."

  function RemovedMessage(n: nat, side: Side): string
  {
    "Удалено " + IntToString(n) + (if side == Greater then GREATER_TAIL else LOWER_TAIL)
  }

  /**
   * RemoveGreater.execute / RemoveLower.execute: sort the store, filter the
   * candidates, remove each with the requester's login and count the
   * successes; an exception is reported by its message.
   */
  function RemoveBeyondResult(req: RequestView, items: seq<Product>, delete: int -> Deletion, side: Side)
    : (Reply, seq<Product>)
  {
    var cmd := if side == Greater then RemoveGreaterCmd else RemoveLowerCmd;
    if req.data.None? then (Responded(Usage(cmd)), items)
    else if !req.data.value.ProductData? then (Responded(Caught(ClassCast)), items)
    else
      var sorted := SortByName(items);
      if sorted == [] then (Responded(Ok(RemovedMessage(0, side))), sorted)
      else
        var cs := Candidates(sorted, req.data.value.product, side);
        if cs.Thrown? then (Responded(Caught(cs.fault)), sorted)
        else
          var (r, items') := RemoveEach(sorted, cs.value, req.login, delete);
          if r.Thrown? then (Responded(Caught(r.fault)), items')
          else (Responded(Ok(RemovedMessage(r.value, side))), items')
  }

  /** An empty collection reports zero removed, with success. */
  lemma RemoveBeyondEmpty(req: RequestView, delete: int -> Deletion, side: Side)
    requires CarriesProduct(req)
    ensures RemoveBeyondResult(req, [], delete, side) == (Responded(Ok(RemovedMessage(0, side))), [])
  {
  }

  /**
   * A successful run reports at most as many removals as there are records;
   * every record that is not beyond the pivot survives, and so does every
   * record no candidate of the requester's equals.
   */
  lemma RemoveBeyondContract(req: RequestView, items: seq<Product>, delete: int -> Deletion, side: Side, x: Product)
    requires CarriesProduct(req)
    ensures var (reply, items') := RemoveBeyondResult(req, items, delete, side);
      reply.Responded?
      && (reply.response.success ==>
            exists n: nat :: n <= |items| && reply.response == Ok(RemovedMessage(n, side)))
      && (!Beyond(x, req.data.value.product, side) ==> multiset(items')[x] == multiset(items)[x])
      && ((forall k :: 0 <= k < |items| && items[k].username == req.login ==> !SameFields(items[k], x))
          ==> multiset(items')[x] == multiset(items)[x])
  {
    var pivot := req.data.value.product;
    var sorted := SortByName(items);
    SortPermutation(items);
    if sorted != [] {
      var cs := Candidates(sorted, pivot, side);
      if cs.Done? {
        RemoveEachCount(sorted, cs.value, req.login, delete);
        CandidatesBeyond(sorted, pivot, side);
        forall c | c in cs.value
          ensures c in multiset(items)
        {
          CandidatesExact(sorted, pivot, side, c);
        }
        if !Beyond(x, pivot, side) {
          RemoveEachSpares(sorted, cs.value, req.login, delete, x);
        }
        if forall k :: 0 <= k < |items| && items[k].username == req.login ==> !SameFields(items[k], x) {
          forall c | c in cs.value && c.username == req.login
            ensures !SameFields(c, x)
          {
            var k :| 0 <= k < |items| && items[k] == c;
          }
          RemoveEachSpares(sorted, cs.value, req.login, delete, x);
        }
        CandidatesCount(sorted, pivot, side);
      }
    }
  }

  /**
   * A successful run removes as many records as the collection holds
   * removable ones (the requester's own records beyond the pivot, with an
   * id and a confirmed delete), reports that number, and takes out records
   * with exactly their fields.
   */
  lemma RemoveBeyondRemoves(req: RequestView, items: seq<Product>, delete: int -> Deletion, side: Side)
    requires CarriesProduct(req)
    ensures var (reply, items') := RemoveBeyondResult(req, items, delete, side);
      var gone := RemovableIn(items, req.data.value.product, side, req.login, delete);
      reply.Responded? && reply.response.success ==>
        reply.response == Ok(RemovedMessage(|gone|, side))
        && |items'| + |gone| == |items|
        && FieldsOf(items') + FieldsOf(gone) == FieldsOf(items)
  {
    var pivot := req.data.value.product;
    var sorted := SortByName(items);
    var gone := RemovableIn(items, pivot, side, req.login, delete);
    SortPermutation(items);
    if sorted == [] {
      assert items == [];
    } else {
      var cs := Candidates(sorted, pivot, side);
      if cs.Done? && RemoveEach(sorted, cs.value, req.login, delete).0.Done? {
        var (r, items') := RemoveEach(sorted, cs.value, req.login, delete);
        assert RemoveBeyondResult(req, items, delete, side) == (Responded(Ok(RemovedMessage(r.value, side))), items');
        CandidatesFields(sorted, pivot, side);
        RemoveEachExact(sorted, cs.value, req.login, delete);
        var done := ConfirmedIn(cs.value, req.login, delete);
        CandidatesConfirmed(sorted, items, pivot, side, req.login, delete);
        assert |done| == |multiset(done)| == |multiset(gone)| == |gone|;
        FieldsOfPermutation(done, gone);
        FieldsOfPermutation(sorted, items);
        assert |FieldsOf(items') + FieldsOf(gone)| == |FieldsOf(items')| + |FieldsOf(gone)|;
      }
    }
  }

  /**
   * The confirmed candidates of a reordering of the collection are, as a
   * multiset, its removable records.
   */
  lemma CandidatesConfirmed(sorted: seq<Product>, items: seq<Product>, pivot: Product, side: Side,
                            login: Option<string>, delete: int -> Deletion)
    requires multiset(sorted) == multiset(items) && Candidates(sorted, pivot, side).Done?
    ensures multiset(ConfirmedIn(Candidates(sorted, pivot, side).value, login, delete))
      == multiset(RemovableIn(items, pivot, side, login, delete))
  {
    var cands := Candidates(sorted, pivot, side).value;
    forall x
      ensures multiset(ConfirmedIn(cands, login, delete))[x] == multiset(RemovableIn(items, pivot, side, login, delete))[x]
    {
      ConfirmedInExact(cands, login, delete, x);
      CandidatesExact(sorted, pivot, side, x);
      RemovableInExact(items, pivot, side, login, delete, x);
    }
  }

  /**
   * A record is gone after a successful run, with every record sharing its
   * fields, when all of those are removable; a twin of another owner, or
   * one of the requester's own whose delete fails, can keep it in place.
   */
  lemma RemoveBeyondTakesTwins(req: RequestView, items: seq<Product>, delete: int -> Deletion, side: Side, x: Product)
    requires CarriesProduct(req)
    requires forall k :: 0 <= k < |items| && SameFields(items[k], x) ==>
      Removable(items[k], req.data.value.product, side, req.login, delete)
    ensures var (reply, items') := RemoveBeyondResult(req, items, delete, side);
      reply.Responded? && reply.response.success ==> forall k :: 0 <= k < |items'| ==> !SameFields(items'[k], x)
  {
    var pivot := req.data.value.product;
    var (reply, items') := RemoveBeyondResult(req, items, delete, side);
    var m := Fields(x);
    if reply.Responded? && reply.response.success {
      RemoveBeyondRemoves(req, items, delete, side);
      RemovableInAll(items, pivot, side, req.login, delete, m);
      assert FieldsOf(items')[m] == 0;
      forall k | 0 <= k < |items'|
        ensures !SameFields(items'[k], x)
      {
        FieldsOfElem(items', k);
      }
    }
  }

  /** There are never more candidates than records. */
  lemma {:induction false} CandidatesCount(s: seq<Product>, pivot: Product, side: Side)
    requires Candidates(s, pivot, side).Done?
    ensures |Candidates(s, pivot, side).value| <= |s|
  {
    if s != [] {
      CandidatesCount(s[..|s| - 1], pivot, side);
    }
  }

  /** removeGreater / removeLower: the counting loop over the candidates. */
  method RemoveBeyond(store: ProductCollectionManager, cands: seq<Product>, login: Option<string>, delete: int -> Deletion)
    returns (r: Outcome<nat>)
    requires store.Valid()
    modifies store`items
    ensures store.Valid()
    ensures (r, store.items) == RemoveEach(old(store.items), cands, login, delete)
  {
    var count := 0;
    var i := 0;
    while i < |cands|
      invariant 0 <= i <= |cands|
      invariant store.Valid()
      invariant (Done(count), store.items) == RemoveEach(old(store.items), cands[..i], login, delete)
    {
      assert cands[..i + 1][..i] == cands[..i];
      var removed := store.RemoveFromCollection(Some(cands[i]), login, delete);
      if removed.Thrown? {
        RemoveEachStops(old(store.items), cands, login, delete, i + 1);
        return Thrown(removed.fault);
      }
      if removed.value {
        count := count + 1;
      }
      i := i + 1;
    }
    assert cands[..i] == cands;
    return Done(count);
  }

  method ExecuteRemoveBeyond(store: ProductCollectionManager, req: RequestView, delete: int -> Deletion, side: Side)
    returns (reply: Reply)
    requires store.Valid()
    modifies store`items
    ensures store.Valid()
    ensures (reply, store.items) == RemoveBeyondResult(req, old(store.items), delete, side)
  {
    var cmd := if side == Greater then RemoveGreaterCmd else RemoveLowerCmd;
    if req.data.None? {
      return Responded(Usage(cmd));
    }
    if !req.data.value.ProductData? {
      return Responded(Caught(ClassCast));
    }
    var fault := store.SortCollection();
    if |store.items| == 0 {
      return Responded(Ok(RemovedMessage(0, side)));
    }
    var cs := Candidates(store.items, req.data.value.product, side);
    if cs.Thrown? {
      return Responded(Caught(cs.fault));
    }
    var r := RemoveBeyond(store, cs.value, req.login, delete);
    if r.Thrown? {
      return Responded(Caught(r.fault));
    }
    return Responded(Ok(RemovedMessage(r.value, side)));
  }

  // ---------------------------------------------------------------------
  // clear

  /** Clear.execute: only the argument check is caught; a null login's exception escapes. */
  function ClearResult(req: RequestView, items: seq<Product>): (Reply, seq<Product>)
  {
    if req.data.Some? then (Responded(Usage(ClearCmd)), items)
    else
      var (f, items') := StoreClear(items, req.login);
      if f.Some? then (Escaped(f.value), items')
      else (Responded(Ok("Коллекция очищена!")), items')
  }

  /**
   * With no argument and a login, exactly the requester's records go, all
   * others stay, and the reply is success even when nothing was removed.
   */
  lemma ClearContract(req: RequestView, items: seq<Product>, x: Product)
    ensures req.data.Some? ==> ClearResult(req, items) == (Responded(Usage(ClearCmd)), items)
    ensures req.data.None? && req.login.Some? ==>
      ClearResult(req, items).0 == Responded(Ok("Коллекция очищена!"))
      && multiset(ClearResult(req, items).1)[x] == if x.username == req.login then 0 else multiset(items)[x]
    ensures req.data.None? && req.login.None? ==>
      ClearResult(req, items).1 == items && (ClearResult(req, items).0.Escaped? <==> items != [])
  {
    if req.login.Some? {
      WithoutOwnerContents(items, req.login.value, x);
    }
  }

  method ExecuteClear(store: ProductCollectionManager, req: RequestView) returns (reply: Reply)
    requires store.Valid()
    modifies store`items
    ensures store.Valid()
    ensures (reply, store.items) == ClearResult(req, old(store.items))
  {
    if req.data.Some? {
      return Responded(Usage(ClearCmd));
    }
    var f := store.ClearCollection(req.login);
    if f.Some? {
      return Escaped(f.value);
    }
    return Responded(Ok("Коллекция очищена!"));
  }
}
