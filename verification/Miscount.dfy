/** As written, ambiguous ids do come up, and a query shows it: for every tag and every brand
    but its own there is a run of the whole system, with one restart of the id service, after
    which a query for that brand counts the tag. */
module Miscount {
  import opened Types
  import opened GoInts
  import opened KeyCodec
  import opened AggregatesDb
  import opened AggregatesQuery
  import opened IdService
  import opened QueryRefinesScan
  import opened WholeSystem
  import opened Ambiguity
  import Ids = IdMachine
  import Worker = Pipeline

  /** Category and origin of the tag, the other brand, the tag's own brand, a restart, and its
      own brand again. */
  function IdRun(tag: UserTag, other: string): seq<Ids.Step> {
    Ids.OneElement(0, CATEGORY, tag.productInfo.categoryId) + Ids.OneElement(0, ORIGIN, tag.origin)
    + Ids.TwoAndRestart(BRAND, other, tag.productInfo.brandId)
  }

  /** After it all these strings have been issued the id 1. */
  ghost predicate AllAreOne(issued: set<Ids.Issue>, tag: UserTag, other: string) {
    && Ids.Issue(CATEGORY, tag.productInfo.categoryId, 1) in issued
    && Ids.Issue(ORIGIN, tag.origin, 1) in issued
    && Ids.Issue(BRAND, tag.productInfo.brandId, 1) in issued
    && Ids.Issue(BRAND, other, 1) in issued
  }

  lemma IdsIssued(tag: UserTag, other: string)
    requires other != tag.productInfo.brandId
    ensures Ids.Exec(0, IdRun(tag, other)).Some?
    ensures AllAreOne(Ids.Exec(0, IdRun(tag, other)).value.issued, tag, other)
  {
    var c, o, b := tag.productInfo.categoryId, tag.origin, tag.productInfo.brandId;
    var first := Ids.OneElement(0, CATEGORY, c);
    assert [] + first == first;
    Ids.NewElement([], CATEGORY, c);
    Ids.OthersStayFresh(Ids.INIT, ORIGIN, o, CATEGORY, c);
    Ids.OthersStayFresh(Ids.INIT, BRAND, b, CATEGORY, c);
    Ids.OthersStayFresh(Ids.INIT, BRAND, other, CATEGORY, c);
    var s1 := Ids.WithElement(Ids.INIT, CATEGORY, c);
    Ids.NewElement(first, ORIGIN, o);
    Ids.OthersStayFresh(s1, BRAND, b, ORIGIN, o);
    Ids.OthersStayFresh(s1, BRAND, other, ORIGIN, o);
    Ids.RestartBreaksDictionary(first + Ids.OneElement(0, ORIGIN, o), BRAND, other, b);
  }

  function Lift(steps: seq<Ids.Step>): seq<Step> {
    seq(|steps|, i requires 0 <= i < |steps| => IdStep(steps[i]))
  }

  lemma {:induction false} LiftedRun(steps: seq<Ids.Step>)
    requires Ids.Exec(0, steps).Some?
    ensures Exec(0, Init(1, 1), Lift(steps)) == Some(State(Worker.Init(1, 1), Ids.Exec(0, steps).value))
  {
    if steps != [] {
      LiftedRun(steps[..|steps| - 1]);
      assert Lift(steps)[..|steps| - 1] == Lift(steps[..|steps| - 1]);
    }
  }

  lemma OneIsHeard(issued: set<Ids.Issue>, c: string, e: string)
    requires Ids.Issue(c, e, 1) in issued
    ensures Answered(issued, c, e, 1)
  {
    assert ToInt32(1) == 1;
  }

  lemma OneTagRun(tag: UserTag, other: string) returns (s: State)
    requires other != tag.productInfo.brandId
    ensures Reachable(0, s) && s.worker.log == [Entry(AggregateKey(1, 1, 1), tag)]
    ensures AllAreOne(s.ids.issued, tag, other)
  {
    IdsIssued(tag, other);
    var ids := Ids.Exec(0, IdRun(tag, other)).value;
    LiftedRun(IdRun(tag, other));
    OneIsHeard(ids.issued, CATEGORY, tag.productInfo.categoryId);
    OneIsHeard(ids.issued, BRAND, tag.productInfo.brandId);
    OneIsHeard(ids.issued, ORIGIN, tag.origin);
    var served := State(Worker.Init(1, 1), ids);
    s := Applied(0, Init(1, 1), served, Entry(AggregateKey(1, 1, 1), tag));
    assert [] + [Entry(AggregateKey(1, 1, 1), tag)] == [Entry(AggregateKey(1, 1, 1), tag)];
  }

  /** The lookup of the other brand. */
  function LookupOf(other: string): (string, string) -> Option<int> {
    (c, e) => if c == BRAND && e == other then Some(1) else None
  }

  /** The row that filters for brand id 1 counts the one tag there is. */
  lemma RowCountsTheTag(e: Entry, f: Filters, row: Row)
    requires Match(f, e.key) && row == Row(e.tag.time, e.tag.productInfo.price, 1)
    ensures SmallCells([e], ToTs(row.t), e.tag.action, f)
    ensures AnswersRow(StoreOf([e]), e.tag.action, f, row)
  {
    OnlyOneName(e);
    OnlyOneCell(e, ToTs(row.t), f);
    ScanOfOne(e, f);
    ShowsExactly(row, ScanIds([e], ToTs(row.t), e.tag.action, f));
    ScanIsARow([e], [Name(e)], e.tag.action, f, row);
  }

  lemma ShowsExactly(row: Row, totals: Totals)
    requires row.sum == totals.sum && row.count == totals.count
    ensures Shows(row, totals)
  {
  }

  lemma ScanOfOne(e: Entry, f: Filters)
    requires Match(f, e.key)
    ensures ScanIds([e], ToTs(e.tag.time), e.tag.action, f) == Totals(e.tag.productInfo.price, 1)
  {
    assert [e][..0] == [];
  }

  lemma OnlyOneName(e: Entry)
    ensures Enumerates(StoreOf([e]), ToTs(e.tag.time), [Name(e)])
  {
    Worker.StoreSnoc([], e);
    assert [] + [e] == [e];
  }

  lemma OnlyOneCell(e: Entry, minute: int64, f: Filters)
    ensures SmallCells([e], minute, e.tag.action, f)
  {
    forall key | Match(f, key) ensures SmallCell([e], ToKey(minute, key), e.tag.action) {
      PricesSnoc([], e, ToKey(minute, key), e.tag.action);
      assert [] + [e] == [e];
    }
  }

  /** As written, the end-to-end agreement can fail: no cell has overflowed,
      key and filter come from ids the service has issued, and yet the row for the other brand
      counts the tag, which the scan does not. */
  lemma UnstableIdsMiscount(tag: UserTag, other: string) returns (s: State, row: Row)
    requires other != tag.productInfo.brandId
    ensures Reachable(0, s)
    ensures LookupAnswered(s.ids.issued, LookupOf(other))
    ensures var q := Params(None, Some(other), None);
            && NewFilters(LookupOf(other), q).Ok?
            && AnswersRow(s.worker.records, tag.action, NewFilters(LookupOf(other), q).value, row)
            && SmallCells(s.worker.log, ToTs(row.t), tag.action, NewFilters(LookupOf(other), q).value)
            && row.count == 1 && Scan(s.worker.log, ToTs(row.t), tag.action, q) == Totals(0, 0)
  {
    s := OneTagRun(tag, other);
    row := Row(tag.time, tag.productInfo.price, 1);
    var e := Entry(AggregateKey(1, 1, 1), tag);
    ReachableKeepsInv(0, s);
    OneIsHeard(s.ids.issued, BRAND, other);
    RowCountsTheTag(e, Filters(None, Some(1), None), row);
    assert [e][..0] == [];
  }
}
