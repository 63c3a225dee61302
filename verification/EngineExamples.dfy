/** Inputs for which the engine does not do what a subscriber or a trader would expect. */
module EngineExamples {
  import opened Domain
  import opened BookSpec
  import opened MatchSpec
  import opened StopSpec
  import opened Auctions
  import opened EngineSpec
  import opened EventFolds
  import MatchQuantities
  import opened EngineInvariants
  import opened EngineCommands
  import opened EngineCrash

  // ----- Expiry -----

  /** An ask for 10 that shows 5 and expires at 7. */
  const LATE_ASK := Order("late", "bob", Ask, Limit, GTD, STPDisabled, true, 100, 10, 5, 0, 5, 5, 5, 1, 7)

  /** A market in which it rests, as its events say. */
  function LateMarket(cfg: Config): Engine {
    Initial(cfg, 1).(book := Book([], [Level(100, [LATE_ASK])]), state := Open)
                   .Emit([OrderAccepted("late", "bob", Ask, Limit, 0, 100, 10, 5, GTD, 1), DepthUpdate(Ask, 100, LevelInfo(5, 5, 1))])
  }

  /** Expiry takes it off: the feed still shows it, and of its 10 only 5 are reported as expired. */
  lemma ExpirySaysTooLittle(cfg: Config)
    ensures var e := LateMarket(cfg); var r := ExpireOrders(e, ["late"]);
            && DepthAfter(NoLevel, e.log, Ask, 100) == InfoAt(e.book.asks, 100)
            && DepthAfter(NoLevel, r.log, Ask, 100) == LevelInfo(5, 5, 1) && InfoAt(r.book.asks, 100) == NoLevel
            && OpenAfter(0, e.log, "late") == OpenQty(e, [], "late") == 10
            && OpenAfter(0, r.log, "late") == 5 && OpenQty(r, [], "late") == 0
  {
    hide DepthAfter, OpenAfter, InfoAt, SumLevels, ExpireOrders;
    var e := LateMarket(cfg);
    var os := [LATE_ASK];
    var ls := [Level(100, os)];
    LateGone(cfg);
    var ev := OrderExpired("late", "bob", Ask, 100, 5);
    var a, d := OrderAccepted("late", "bob", Ask, Limit, 0, 100, 10, 5, GTD, 1), DepthUpdate(Ask, 100, LevelInfo(5, 5, 1));
    assert e.log == [a, d];
    DepthFew(NoLevel, a, d, Ask, 100);
    OpenFew(0, a, d, "late");
    LogStep(e.log, ev, "late", "", Ask, 100);
    LateSums(os, ls);
    NothingLeft();
  }

  lemma LateGone(cfg: Config)
    ensures ExpireOrders(LateMarket(cfg), ["late"])
         == LateMarket(cfg).(book := EMPTY_BOOK).Emit([OrderExpired("late", "bob", Ask, 100, 5)])
  {
    var e := LateMarket(cfg);
    var os := [LATE_ASK];
    var ls := [Level(100, os)];
    assert os[1..] == [] && ls[1..] == [] && e.book.asks == ls;
    assert Find(e.book, "late") == Found(LATE_ASK);
    assert ["late"][..0] == [] && ExpireOrders(e, []) == e;
  }

  lemma NothingLeft()
    ensures InfoAt([], 100) == NoLevel && SumLevels([], MatchQuantities.OpenOf("late")) == 0
  {
  }

  lemma LateSums(os: seq<Order>, ls: seq<Level>)
    requires os == [LATE_ASK] && ls == [Level(100, os)]
    ensures Info(os) == LevelInfo(5, 5, 1) && InfoAt(ls, 100) == Info(os) && SumLevels(ls, MatchQuantities.OpenOf("late")) == 10
  {
    assert os[1..] == [] && ls[1..] == [];
    assert SumOf(os, RemainOf) == 5 + SumOf([], RemainOf);
    assert SumOf(os, DisplayOf) == 5 + SumOf([], DisplayOf);
    assert SumOf(os, MatchQuantities.OpenOf("late")) == 10 + SumOf([], MatchQuantities.OpenOf("late"));
    assert SumLevels(ls, MatchQuantities.OpenOf("late")) == SumOf(os, MatchQuantities.OpenOf("late")) + SumLevels([], MatchQuantities.OpenOf("late"));
  }

  // ----- A halted stop -----

  /** A market halted in its auction, with one order collected. */
  function HaltedAuction(cfg: Config): Engine {
    Initial(cfg, 1).(state := Halted, preHalt := Auction, auctionBids := [AuctionOrder("x", "ann", Bid, 100, 1, GTC, 1)])
  }

  /** A stop may take the id of a collected order. */
  lemma HaltedStopTakesId(cfg: Config)
    requires Plain(cfg) && cfg.auctions && cfg.stopLevelCap > 0
    ensures var s := StopNo(0).(id := "x"); var r := Process(HaltedAuction(cfg), PlaceStop(s), 0);
            FindStop(r.stops, "x").FoundStop? && InAuction(r, "x")
  {
    hide CheckStop, TriggersInUse, HasStopAt;
    var e, s := HaltedAuction(cfg), StopNo(0).(id := "x");
    TakerPasses(cfg);
    FirstLevel(1);
    var r := Process(e, PlaceStop(s), 0);
    assert (r.auctionBids + r.auctionAsks)[0].id == "x";
  }

  lemma TakerPasses(cfg: Config)
    requires Plain(cfg)
    ensures CheckStop(HaltedAuction(cfg), StopNo(0).(id := "x"), 0) == Pass
  {
    assert !Holds(HaltedAuction(cfg).book, "x");
    NoStops("x");
  }

  lemma FirstLevel(trigger: int)
    ensures TriggersInUse(NO_STOPS) == 0
  {
  }

  // ----- Resting across the book -----

  const PLAIN_ASK := Order("ask", "bob", Ask, Limit, GTC, STPDisabled, false, 100, 5, 5, 0, 5, 0, 5, 1, 0)

  /** A halted market with one ask. */
  function HaltedMarket(cfg: Config): Engine {
    Initial(cfg, 1).(book := Book([], [Level(100, [PLAIN_ASK])]), state := Halted)
  }

  const QUICK_BID := LimitCmd("bid", "ann", Bid, 101, 5, 5, IOC, Flags(false, false, false), 0, STPDisabled)

  /** An immediate-or-cancel bid above the best ask rests there while the market is halted. */
  lemma ImmediateOrderRestsAcross(cfg: Config)
    requires Plain(cfg) && cfg.ioc && cfg.nodeCap >= 2 && cfg.levelCap >= 2
    ensures var r := Process(HaltedMarket(cfg), PlaceLimit(QUICK_BID, HookOK), 0);
            r.book.bids == [Level(101, [LimitOrder(cfg, QUICK_BID, 2)])] && r.book.asks == [Level(100, [PLAIN_ASK])] && !Uncrossed(r.book)
  {
    var e := HaltedMarket(cfg);
    var os := [PLAIN_ASK];
    var ls := [Level(100, os)];
    assert os[1..] == [] && ls[1..] == [] && e.book.asks == ls;
    AskSums(os, ls);
    NoStops("bid");
    assert CheckLimit(e, QUICK_BID, HookOK, 0) == Pass;
    assert Insert([], LimitOrder(cfg, QUICK_BID, 2)) == [Level(101, [LimitOrder(cfg, QUICK_BID, 2)])];
  }

  lemma AskSums(os: seq<Order>, ls: seq<Level>)
    requires os == [PLAIN_ASK] && ls == [Level(100, os)]
    ensures SumBook(Book([], ls), One) == 1 && !Holds(Book([], ls), "bid")
  {
    assert os[1..] == [] && ls[1..] == [];
    assert SumOf(os, One) == 1 + SumOf([], One);
    assert SumOf(os, HasId("bid")) == 0 + SumOf([], HasId("bid"));
    assert SumLevels(ls, One) == SumOf(os, One) + SumLevels([], One);
    assert SumLevels(ls, HasId("bid")) == SumOf(os, HasId("bid")) + SumLevels([], HasId("bid"));
  }

  lemma NoStops(id: OrderId)
    ensures !StopHeld(NO_STOPS, id)
  {
  }
}
