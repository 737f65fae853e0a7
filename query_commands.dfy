/**
 * The commands that only read: sum_of_price, info, help (given the
 * registry's listing) and exit.
 */
module QueryCommands {
  import opened Util
  import opened Models
  import opened Envelope
  import opened Collection
  import opened CommandBase

  // ---------------------------------------------------------------------
  // sum_of_price

  /** The exact sum of the prices, as a reference for the int sum. */
  function ExactSum(s: seq<Product>): int
    requires forall k :: 0 <= k < |s| ==> s[k].price.Some?
  {
    if s == [] then 0 else ExactSum(s[..|s| - 1]) + s[|s| - 1].price.value
  }

  /** mapToInt(getPrice).sum(): unboxing a null price throws; the running sum wraps like an int. */
  function PriceSum(s: seq<Product>): Outcome<Int32>
  {
    if s == [] then Done(0)
    else
      var r0 := PriceSum(s[..|s| - 1]);
      if r0.Thrown? then r0
      else if s[|s| - 1].price.None? then Thrown(NullPointer)
      else Done(Wrap32(r0.value + s[|s| - 1].price.value))
  }

  /**
   * The sum is computed exactly when every price is present, and it is then
   * the exact sum truncated to an int; within the int range, the exact sum.
   */
  lemma {:induction false} PriceSumExact(s: seq<Product>)
    ensures PriceSum(s).Done? <==> forall k :: 0 <= k < |s| ==> s[k].price.Some?
    ensures PriceSum(s).Thrown? ==> PriceSum(s).fault == NullPointer
    ensures PriceSum(s).Done? ==> PriceSum(s).value == Wrap32(ExactSum(s))
  {
    if s != [] {
      var t := s[..|s| - 1];
      PriceSumExact(t);
      assert forall k :: 0 <= k < |t| ==> t[k] == s[k];
      if PriceSum(s).Done? {
        Wrap32Add(ExactSum(t), s[|s| - 1].price.value);
      }
    }
  }

  const SUM_PREFIX: string := "Сумма значений поля price для всех продуктов: "

  /** SumOfPrice.execute: a zero sum is reported as an empty collection; a null price escapes. */
  function SumOfPriceResult(req: RequestView, items: seq<Product>): Reply
  {
    if req.data.Some? then Responded(Usage(SumOfPriceCmd))
    else
      var sum := PriceSum(items);
      if sum.Thrown? then Escaped(sum.fault)
      else if sum.value == 0 then Responded(Fail(EMPTY))
      else Responded(Ok(SUM_PREFIX + IntToString(sum.value)))
  }

  const EMPTY: string := "Коллекция пуста!"

  /**
   * With every price present and no argument, the reply reports the int sum
   * of the prices, unless that sum is 0, which reads as an empty collection.
   */
  lemma SumOfPriceContract(req: RequestView, items: seq<Product>)
    requires req.data.None? && forall k :: 0 <= k < |items| ==> items[k].price.Some?
    ensures var sum := Wrap32(ExactSum(items));
      SumOfPriceResult(req, items) ==
        if sum == 0 then Responded(Fail(EMPTY)) else Responded(Ok(SUM_PREFIX + IntToString(sum)))
  {
    PriceSumExact(items);
  }

  /** An empty collection is reported as "Коллекция пуста!". */
  lemma SumOfPriceEmpty(req: RequestView)
    requires req.data.None?
    ensures SumOfPriceResult(req, []) == Responded(Fail(EMPTY))
  {
  }

  /** Three positive prices whose exact sum is 2^32 wrap to 0 and are reported as an empty collection. */
  lemma SumOfPriceWrapsToEmpty(req: RequestView, p: Product)
    requires req.data.None?
    ensures var big := p.(price := Some(0x7FFF_FFFF));
      var small := p.(price := Some(2));
      SumOfPriceResult(req, [big, big, small]) == Responded(Fail(EMPTY))
  {
    var big := p.(price := Some(0x7FFF_FFFF));
    var small := p.(price := Some(2));
    var s := [big, big, small];
    assert s[..2] == [big, big] && s[..2][..1] == [big] && [big][..0] == [];
    assert PriceSum([big]) == Done(0x7FFF_FFFF);
    assert PriceSum([big, big]) == Done(-2);
  }

  // ---------------------------------------------------------------------
  // info

  // The long literals are written in pieces so that the verifier can see they hold no line break.
  const NO_INIT: string := "в данной " + "сессии " + "инициализации " + "еще не " + "происходило"
  const NO_SAVE: string := "в данной " + "сессии " + "сохранения " + "еще не " + "происходило"

  /** LocalDate.toString() + " " + LocalTime.toString(), or the placeholder for null. */
  function TimeText(t: Option<Time>, placeholder: string): string
  {
    if t.None? then placeholder else t.value.date + " " + t.value.clock
  }

  /** The format string of the info message, line by line. */
  const HEADER: string := "Сведения " + "о коллекции:"
  const TYPE_LABEL: string := " Тип: "
  const SIZE_LABEL: string := " Количество " + "элементов: "
  const SAVE_LABEL: string := " Дата " + "последнего " + "сохранения: "
  const INIT_LABEL: string := " Дата " + "последней " + "инициализации: "

  /** The five lines of the info message. */
  function InfoLines(kind: string, size: nat, lastSave: Option<Time>, lastInit: Option<Time>): seq<string>
  {
    [HEADER, TYPE_LABEL + kind, SIZE_LABEL + IntToString(size),
     SAVE_LABEL + TimeText(lastSave, NO_SAVE), INIT_LABEL + TimeText(lastInit, NO_INIT)]
  }

  /** Info.execute, given the store's type name, size and timestamps. */
  function InfoResult(req: RequestView, kind: string, size: nat, lastInit: Option<Time>, lastSave: Option<Time>): Reply
  {
    if req.data.Some? then Responded(Usage(InfoCmd))
    else Responded(Ok(Join("\n", InfoLines(kind, size, lastSave, lastInit))))
  }

  predicate OneLine(s: string) { '\n' !in s }

  predicate TimeOneLine(t: Option<Time>)
  {
    t.Some? ==> OneLine(t.value.date) && OneLine(t.value.clock)
  }

  /** Five texts joined with a separator, written out. */
  lemma JoinFive(sep: string, a: string, b: string, c: string, d: string, e: string)
    ensures Join(sep, [a, b, c, d, e]) == a + sep + b + sep + c + sep + d + sep + e
  {
    assert [a, b, c, d, e][1..] == [b, c, d, e];
    assert [b, c, d, e][1..] == [c, d, e];
    assert [c, d, e][1..] == [d, e];
    assert [d, e][1..] == [e];
    assert Join(sep, [e]) == e;
    var j2 := Join(sep, [d, e]);
    assert j2 == d + sep + e;
    var j3 := Join(sep, [c, d, e]);
    assert j3 == c + sep + j2;
    var j4 := Join(sep, [b, c, d, e]);
    assert j4 == b + sep + j3;
    assert Join(sep, [a, b, c, d, e]) == a + sep + j4;
  }

  lemma TimeTextOneLine(t: Option<Time>, placeholder: string)
    requires TimeOneLine(t) && OneLine(placeholder)
    ensures OneLine(TimeText(t, placeholder))
  {
  }

  lemma NumberOneLine(n: nat)
    ensures OneLine(IntToString(n))
  {
  }

  lemma InfoLinesOneLine(kind: string, size: nat, lastSave: Option<Time>, lastInit: Option<Time>)
    requires OneLine(kind) && TimeOneLine(lastInit) && TimeOneLine(lastSave)
    ensures forall k :: 0 <= k < 5 ==> '\n' !in InfoLines(kind, size, lastSave, lastInit)[k]
  {
    NumberOneLine(size);
    TimeTextOneLine(lastSave, NO_SAVE);
    TimeTextOneLine(lastInit, NO_INIT);
    var ls := InfoLines(kind, size, lastSave, lastInit);
    assert OneLine(ls[0]);
    assert OneLine(ls[1]);
    assert OneLine(ls[2]);
    assert OneLine(ls[3]);
    assert OneLine(ls[4]);
  }

  /**
   * Without an argument the reply succeeds and its message splits into
   * exactly the five lines: header, type, size, save time (or its
   * placeholder), init time (or its placeholder).
   */
  lemma InfoContract(req: RequestView, kind: string, size: nat, lastInit: Option<Time>, lastSave: Option<Time>)
    requires req.data.None? && OneLine(kind) && TimeOneLine(lastInit) && TimeOneLine(lastSave)
    ensures InfoResult(req, kind, size, lastInit, lastSave).Responded?
    ensures InfoResult(req, kind, size, lastInit, lastSave).response.success
    ensures SplitAll(InfoResult(req, kind, size, lastInit, lastSave).response.message.value, '\n')
            == InfoLines(kind, size, lastSave, lastInit)
  {
    InfoLinesOneLine(kind, size, lastSave, lastInit);
    JoinSplit(InfoLines(kind, size, lastSave, lastInit), '\n');
  }

  method ExecuteInfo(store: ProductCollectionManager, req: RequestView) returns (reply: Reply)
    ensures reply == InfoResult(req, store.CollectionType(), store.CollectionSize(), store.lastInitTime, store.lastSaveTime)
  {
    if req.data.Some? {
      return Responded(Usage(InfoCmd));
    }
    var kind := TYPE_LABEL + store.CollectionType();
    var size := SIZE_LABEL + IntToString(store.CollectionSize());
    var save := SAVE_LABEL + TimeText(store.lastSaveTime, NO_SAVE);
    var init := INIT_LABEL + TimeText(store.lastInitTime, NO_INIT);
    JoinFive("\n", HEADER, kind, size, save, init);
    return Responded(Ok(HEADER + "\n" + kind + "\n" + size + "\n" + save + "\n" + init));
  }

  // ---------------------------------------------------------------------
  // help

  /** Help.execute, given the registry's toString. */
  function HelpResult(req: RequestView, listing: string): (r: Reply)
    ensures r.Responded?
    ensures r.response.success <==> req.data.None?
    ensures r.response.success ==> r.response.message == Some(listing)
    ensures !r.response.success ==> r.response == Usage(HelpCmd)
  {
    if req.data.Some? then Responded(Usage(HelpCmd)) else Responded(Ok(listing))
  }

  // ---------------------------------------------------------------------
  // exit

  /** Exit.execute: no argument ends the program, any argument is refused. */
  function ExitResult(req: RequestView): (r: Reply)
    ensures r.Responded? && r.response.data.None?
    ensures r.response.success <==> req.data.None?
    ensures r.response.message == Some(if req.data.None? then "Программа завершена" else WRONG_COUNT)
  {
    if req.data.Some? then Responded(Fail(WRONG_COUNT)) else Responded(Ok("Программа завершена"))
  }
}
