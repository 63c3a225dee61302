/** What the processor lets in: the checks of each kind of order as one ordered list of rules in plain terms, and what
    an order that passes is. */
module Admission {
  import opened Domain
  import opened BookSpec
  import opened BookLemmas
  import opened MatchSpec
  import opened MatchLemmas
  import opened MatchTheorems
  import opened PlaceEffects
  import opened PlacementResults
  import opened Slices
  import opened StopSpec
  import Circuit
  import opened Decimals
  import opened Positions
  import opened EngineSpec
  import opened EngineInvariants
  import opened EngineSteps
  import opened EngineRuns

  // ----- Rules -----

  /** Something that must not be the case, and the refusal it is met with. */
  datatype Rule = Rule(broken: bool, reason: Reason)

  /** The first rule broken decides. */
  ghost function FirstBroken(rules: seq<Rule>): Verdict {
    if rules == [] then Pass else if rules[0].broken then Fail(rules[0].reason) else FirstBroken(rules[1..])
  }

  lemma RulesConcat(a: seq<Rule>, b: seq<Rule>)
    ensures FirstBroken(a + b) == if FirstBroken(a).Fail? then FirstBroken(a) else FirstBroken(b)
  {
    if a == [] {
      assert a + b == b;
    } else {
      assert (a + b)[0] == a[0] && (a + b)[1..] == a[1..] + b;
      RulesConcat(a[1..], b);
    }
  }

  /** A whole positive number of steps. */
  ghost predicate WholeSteps(x: int, step: int) {
    step > 0 && exists k :: k > 0 && x == k * step
  }

  lemma StepsExactly(x: int, step: int)
    ensures Multiple(x, step) <==> WholeSteps(x, step)
  {
    if Multiple(x, step) {
      assert x == (x / step) * step;
      assert x / step > 0;
    }
    if WholeSteps(x, step) {
      var k :| k > 0 && x == k * step;
      WholePart(k, step);
    }
  }

  lemma WholePart(k: int, step: int)
    requires k > 0 && step > 0
    ensures k * step > 0 && (k * step) % step == 0
  {
    var x := k * step;
    var d, r := k - x / step, x % step;
    assert x == (x / step) * step + r;
    assert d * step == k * step - (x / step) * step;
    NoShare(d, step);
    NoShare(1 - k, step);
  }

  /** A multiple of a step below one step is none. */
  lemma NoShare(d: int, step: int)
    requires step > 0
    ensures d > 0 ==> d * step >= step
    ensures d < 0 ==> d * step < 0
    decreases if d < 0 then -d else d
  {
    if d > 1 {
      NoShare(d - 1, step);
    } else if d < -1 {
      NoShare(d + 1, step);
    }
  }

  /** The id rests in the book, waits in the stop book or - where auctions are held - is collected. */
  ghost predicate InUse(e: Engine, id: OrderId, collected: bool) {
    || (exists i, k :: IdAt(e.book.bids, i, k, id)) || (exists i, k :: IdAt(e.book.asks, i, k, id))
    || (exists s :: (s in e.stops.sells || s in e.stops.buys) && s.id == id)
    || (collected && e.cfg.auctions && exists o :: (o in e.auctionBids || o in e.auctionAsks) && o.id == id)
  }

  lemma InUseExactly(e: Engine, id: OrderId)
    ensures InUse(e, id, false) <==> Holds(e.book, id) || StopHeld(e.stops, id)
    ensures InUse(e, id, true) <==> Holds(e.book, id) || StopHeld(e.stops, id) || (e.cfg.auctions && InAuction(e, id))
  {
    SideCount(e.book.bids, id);
    SideCount(e.book.asks, id);
    StopCount(e.stops.sells, id);
    StopCount(e.stops.buys, id);
    StopsNamed(e.stops.sells, id);
    StopsNamed(e.stops.buys, id);
    var all := e.auctionBids + e.auctionAsks;
    assert forall o :: o in all <==> o in e.auctionBids || o in e.auctionAsks;
    assert InAuction(e, id) <==> exists o :: o in all && o.id == id by {
      if i :| 0 <= i < |all| && all[i].id == id {
        assert all[i] in all;
      }
    }
  }

  lemma StopsNamed(ss: seq<Stop>, id: OrderId)
    ensures FindStopIn(ss, id).FoundStop? <==> exists s :: s in ss && s.id == id
  {
    StopCount(ss, id);
  }

  /** The notional in units of price, truncated toward zero, is above the limit. */
  predicate Exceeds(cfg: Config, price: int, qty: int) {
    cfg.maxValue != 0
    && if price * qty >= 0 then price * qty >= (cfg.maxValue + 1) * Pow10(cfg.qtyPrecision) else price * qty > cfg.maxValue * Pow10(cfg.qtyPrecision)
  }

  lemma ValueExactly(cfg: Config, price: int, qty: int)
    ensures OverValue(cfg, price, qty) <==> Exceeds(cfg, price, qty)
  {
    hide Pow10;
    Powers10(cfg.qtyPrecision);
    var n, d := price * qty, Pow10(cfg.qtyPrecision);
    if n >= 0 {
      AtLeast(n, d, cfg.maxValue + 1);
    } else {
      AtLeast(-n, d, -cfg.maxValue);
      Negated(cfg.maxValue, d);
    }
  }

  lemma Negated(a: int, b: int)
    ensures (-a) * b == -(a * b)
  {
  }

  lemma {:induction false} Powers10(p: nat)
    ensures Pow10(p) > 0
  {
    if p > 0 {
      Powers10(p - 1);
    }
  }

  /** Quantity, and value at this price. */
  function QtyRules(cfg: Config, price: int, qty: int): seq<Rule> {
    [Rule(qty <= 0, BelowMinQty),
     Rule(cfg.minQty != 0 && qty < cfg.minQty, BelowMinQty),
     Rule(cfg.maxQty != 0 && qty > cfg.maxQty, AboveMaxQty),
     Rule(Exceeds(cfg, price, qty), AboveMaxValue)]
  }

  function ExpiryRules(cfg: Config, tif: TIF, expireAt: int, now: int): seq<Rule> {
    [Rule(tif == GTD && expireAt <= now, InvalidExpiry),
     Rule(tif == DAY && cfg.sessionEnd == 0, FeatureDisabled),
     Rule(tif == DAY && cfg.sessionEnd <= now, InvalidExpiry)]
  }

  lemma QtyRulesExactly(cfg: Config, price: int, qty: int)
    ensures FirstBroken(QtyRules(cfg, price, qty)) == ValidateQty(cfg, price, qty)
  {
    hide OverValue, Exceeds;
    ValueExactly(cfg, price, qty);
    var r := QtyRules(cfg, price, qty);
    Unrolled(r);
    Unrolled(r[1..]);
    Unrolled(r[2..]);
    Unrolled(r[3..]);
    assert r[4..] == [];
  }

  lemma Unrolled(r: seq<Rule>)
    requires r != []
    ensures FirstBroken(r) == if r[0].broken then Fail(r[0].reason) else FirstBroken(r[1..])
  {
  }

  lemma ExpiryRulesExactly(cfg: Config, tif: TIF, expireAt: int, now: int)
    ensures FirstBroken(ExpiryRules(cfg, tif, expireAt, now)) == ValidateExpiry(cfg, tif, expireAt, now)
  {
    var r := ExpiryRules(cfg, tif, expireAt, now);
    Unrolled(r);
    Unrolled(r[1..]);
    Unrolled(r[2..]);
    assert r[3..] == [];
  }

  // ----- Limit orders -----

  /** Some order of the other side rests at a price the order reaches. */
  ghost predicate Reaches(b: Book, side: Side, price: int) {
    if side == Bid then exists i :: 0 <= i < |b.asks| && b.asks[i].price <= price
    else exists i :: 0 <= i < |b.bids| && b.bids[i].price >= price
  }

  lemma ReachesBest(b: Book, side: Side, price: int)
    requires SoundBook(b)
    ensures Reaches(b, side, price) <==> WouldCross(b, side, price)
  {
    if WouldCross(b, side, price) {
      assert if side == Bid then b.asks[0].price <= price else b.bids[0].price >= price;
    }
    var ls := b.Of(side.Opposite());
    assert forall i :: 0 < i < |ls| ==> Better(side.Opposite(), ls[0].price, ls[i].price);
  }

  /** No level of the order's side is at its price, and no slot is left for one. */
  predicate NoRoom(e: Engine, side: Side, price: int) {
    |e.book.bids| + |e.book.asks| >= e.cfg.levelCap && !HasLevel(e.book.Of(side), price)
  }

  /** The rules of the market and its features, and of the user's position. */
  function LimitFeatureRules(e: Engine, c: LimitCmd): seq<Rule> {
    [Rule(e.state == Closed, MarketNotOpen),
     Rule(c.tif == IOC && !e.cfg.ioc, FeatureDisabled),
     Rule(c.tif == FOK && !e.cfg.fok, FeatureDisabled),
     Rule(c.flags.postOnly && !e.cfg.postOnly, FeatureDisabled),
     Rule(c.flags.iceberg && !e.cfg.icebergs, FeatureDisabled),
     Rule(c.flags.reduceOnly && !e.cfg.reduceOnly, FeatureDisabled),
     Rule(c.flags.reduceOnly && Overshoots(e, c.user, c.side, c.qty), ReduceOnlyIncreases)]
  }

  /** Filled in full, the order would leave its user long by buying, or short by selling. */
  predicate Overshoots(e: Engine, user: UserId, side: Side, qty: int) {
    var held := if user in e.positions then e.positions[user] else 0;
    match side
    case Bid => held + qty > 0
    case Ask => held - qty < 0
  }

  ghost function LimitIdRules(e: Engine, c: LimitCmd): seq<Rule> {
    [Rule(InUse(e, c.id, true), DuplicateOrderID), Rule(c.price <= 0, InvalidPrice)]
  }

  ghost function LimitStepRules(cfg: Config, c: LimitCmd): seq<Rule> {
    [Rule(!WholeSteps(c.price, cfg.tick), InvalidTick),
     Rule(!WholeSteps(c.qty, cfg.lot), InvalidLot),
     Rule(c.flags.iceberg && !WholeSteps(c.display, cfg.lot), InvalidLot),
     Rule(c.flags.iceberg && c.display >= c.qty, InvalidLot)]
  }

  /** What depends on the book, and the hook's answer. */
  ghost function LimitBookRules(e: Engine, c: LimitCmd, hook: HookAnswer): seq<Rule> {
    [Rule(c.flags.postOnly && e.state != Auction && Reaches(e.book, c.side, c.price), PostOnlyWouldCross),
     Rule((c.tif == GTC || c.tif == GTD || c.tif == DAY) && (e.state == Halted || e.state == PreOpen) && NoRoom(e, c.side, c.price), PoolExhausted),
     Rule((c.tif == GTC || c.tif == GTD || c.tif == DAY) && e.state == Open && NoRoom(e, c.side, c.price) && !Reaches(e.book, c.side, c.price), PoolExhausted),
     Rule(hook.HookRefuses?, if hook.HookRefuses? then hook.reason else HookRefused)]
  }

  /** Everything a limit order must pass, in this order. */
  ghost function LimitRules(e: Engine, c: LimitCmd, hook: HookAnswer, now: int): seq<Rule> {
    LimitFeatureRules(e, c) + (LimitIdRules(e, c) + (QtyRules(e.cfg, c.price, c.qty) + (LimitStepRules(e.cfg, c)
      + (ExpiryRules(e.cfg, c.tif, c.expireAt, now) + LimitBookRules(e, c, hook)))))
  }

  lemma FeatureRulesExactly(e: Engine, c: LimitCmd)
    ensures FirstBroken(LimitFeatureRules(e, c)) ==
              if e.state.Closed? then Fail(MarketNotOpen) else if LimitDisabled(e.cfg, c) then Fail(FeatureDisabled)
              else if c.flags.reduceOnly && WouldIncrease(e.positions, c.user, c.side, c.qty) then Fail(ReduceOnlyIncreases) else Pass
  {
    var r := LimitFeatureRules(e, c);
    Unrolled(r);
    Unrolled(r[1..]);
    Unrolled(r[2..]);
    Unrolled(r[3..]);
    Unrolled(r[4..]);
    Unrolled(r[5..]);
    Unrolled(r[6..]);
    assert r[7..] == [];
  }

  lemma IdRulesExactly(e: Engine, c: LimitCmd)
    ensures FirstBroken(LimitIdRules(e, c)) ==
              if Holds(e.book, c.id) || StopHeld(e.stops, c.id) || (e.cfg.auctions && InAuction(e, c.id)) then Fail(DuplicateOrderID)
              else if c.price <= 0 then Fail(InvalidPrice) else Pass
  {
    hide InUse, Holds, StopHeld, InAuction;
    InUseExactly(e, c.id);
    var r := LimitIdRules(e, c);
    Unrolled(r);
    Unrolled(r[1..]);
    assert r[2..] == [];
  }

  lemma StepRulesExactly(cfg: Config, c: LimitCmd)
    ensures FirstBroken(LimitStepRules(cfg, c)) ==
              if !Multiple(c.price, cfg.tick) then Fail(InvalidTick)
              else if !Multiple(c.qty, cfg.lot) then Fail(InvalidLot)
              else if c.flags.iceberg && (!Multiple(c.display, cfg.lot) || c.display >= c.qty) then Fail(InvalidLot) else Pass
  {
    hide WholeSteps, Multiple;
    StepsExactly(c.price, cfg.tick);
    StepsExactly(c.qty, cfg.lot);
    StepsExactly(c.display, cfg.lot);
    var r := LimitStepRules(cfg, c);
    Unrolled(r);
    Unrolled(r[1..]);
    Unrolled(r[2..]);
    Unrolled(r[3..]);
    assert r[4..] == [];
  }

  lemma BookRulesExactly(e: Engine, c: LimitCmd, hook: HookAnswer)
    requires SoundBook(e.book)
    ensures FirstBroken(LimitBookRules(e, c, hook)) ==
              if c.flags.postOnly && !e.state.Auction? && WouldCross(e.book, c.side, c.price) then Fail(PostOnlyWouldCross)
              else if NoLevelLeft(e, c) then Fail(PoolExhausted) else if hook.HookRefuses? then Fail(hook.reason) else Pass
  {
    hide Reaches, WouldCross, HasLevel, SoundBook;
    ReachesBest(e.book, c.side, c.price);
    var r := LimitBookRules(e, c, hook);
    Unrolled(r);
    Unrolled(r[1..]);
    Unrolled(r[2..]);
    Unrolled(r[3..]);
    assert r[4..] == [];
  }

  /** A limit order is refused for the first rule it breaks, and passes when it breaks none. */
  lemma LimitChecked(e: Engine, c: LimitCmd, hook: HookAnswer, now: int)
    requires SoundBook(e.book)
    ensures CheckLimit(e, c, hook, now) == FirstBroken(LimitRules(e, c, hook, now))
  {
    hide FirstBroken, LimitFeatureRules, LimitIdRules, QtyRules, LimitStepRules, ExpiryRules, LimitBookRules, Holds, StopHeld, InAuction,
      LimitDisabled, WouldIncrease, Multiple, ValidateQty, ValidateExpiry, WouldCross, NoLevelLeft, SoundBook;
    FeatureRulesExactly(e, c);
    IdRulesExactly(e, c);
    StepRulesExactly(e.cfg, c);
    ExpiryRulesExactly(e.cfg, c.tif, c.expireAt, now);
    BookRulesExactly(e, c, hook);
    QtyRulesExactly(e.cfg, c.price, c.qty);
    var expiry, books := ExpiryRules(e.cfg, c.tif, c.expireAt, now), LimitBookRules(e, c, hook);
    var steps, qtys, ids := LimitStepRules(e.cfg, c), QtyRules(e.cfg, c.price, c.qty), LimitIdRules(e, c);
    RulesConcat(expiry, books);
    RulesConcat(steps, expiry + books);
    RulesConcat(qtys, steps + (expiry + books));
    RulesConcat(ids, qtys + (steps + (expiry + books)));
    RulesConcat(LimitFeatureRules(e, c), ids + (qtys + (steps + (expiry + books))));
  }

  // ----- Market orders and stops -----

  ghost function MarketFirstRules(e: Engine, c: MarketCmd): seq<Rule> {
    [Rule(e.state != Open, MarketNotOpen),
     Rule(!e.cfg.marketOrders, FeatureDisabled),
     Rule(c.flags.iceberg, FeatureDisabled),
     Rule(c.flags.reduceOnly && !e.cfg.reduceOnly, FeatureDisabled),
     Rule(c.flags.reduceOnly && Overshoots(e, c.user, c.side, c.qty), ReduceOnlyIncreases),
     Rule(InUse(e, c.id, false), DuplicateOrderID)]
  }

  function MarketQtyRules(cfg: Config, c: MarketCmd): seq<Rule> {
    [Rule(c.qty <= 0, BelowMinQty),
     Rule(cfg.minQty != 0 && c.qty < cfg.minQty, BelowMinQty),
     Rule(cfg.maxQty != 0 && c.qty > cfg.maxQty, AboveMaxQty),
     Rule(c.tif == GTC || c.tif == GTD || c.tif == DAY, FeatureDisabled)]
  }

  ghost function MarketRules(e: Engine, c: MarketCmd): seq<Rule> {
    MarketFirstRules(e, c) + MarketQtyRules(e.cfg, c)
  }

  lemma MarketFirstExactly(e: Engine, c: MarketCmd)
    ensures FirstBroken(MarketFirstRules(e, c)) ==
              if !e.state.Open? then Fail(MarketNotOpen)
              else if !e.cfg.marketOrders || c.flags.iceberg || (c.flags.reduceOnly && !e.cfg.reduceOnly) then Fail(FeatureDisabled)
              else if c.flags.reduceOnly && WouldIncrease(e.positions, c.user, c.side, c.qty) then Fail(ReduceOnlyIncreases)
              else if Holds(e.book, c.id) || StopHeld(e.stops, c.id) then Fail(DuplicateOrderID) else Pass
  {
    hide InUse, Holds, StopHeld;
    InUseExactly(e, c.id);
    var r := MarketFirstRules(e, c);
    Unrolled(r);
    Unrolled(r[1..]);
    Unrolled(r[2..]);
    Unrolled(r[3..]);
    Unrolled(r[4..]);
    Unrolled(r[5..]);
    assert r[6..] == [];
  }

  lemma MarketQtyExactly(cfg: Config, c: MarketCmd)
    ensures FirstBroken(MarketQtyRules(cfg, c)) ==
              if c.qty <= 0 || (cfg.minQty != 0 && c.qty < cfg.minQty) then Fail(BelowMinQty)
              else if cfg.maxQty != 0 && c.qty > cfg.maxQty then Fail(AboveMaxQty)
              else if c.tif.CanRest() then Fail(FeatureDisabled) else Pass
  {
    var r := MarketQtyRules(cfg, c);
    Unrolled(r);
    Unrolled(r[1..]);
    Unrolled(r[2..]);
    Unrolled(r[3..]);
    assert r[4..] == [];
  }

  lemma MarketChecked(e: Engine, c: MarketCmd)
    ensures CheckMarket(e, c) == FirstBroken(MarketRules(e, c))
  {
    hide FirstBroken, MarketFirstRules, MarketQtyRules, Holds, StopHeld, WouldIncrease;
    MarketFirstExactly(e, c);
    MarketQtyExactly(e.cfg, c);
    RulesConcat(MarketFirstRules(e, c), MarketQtyRules(e.cfg, c));
  }

  ghost function StopFirstRules(e: Engine, c: StopCmd): seq<Rule> {
    [Rule(e.state != Open && e.state != Halted, MarketNotOpen),
     Rule(!e.cfg.stopOrders, FeatureDisabled),
     Rule(c.flags.reduceOnly && !e.cfg.reduceOnly, FeatureDisabled),
     Rule(InUse(e, c.id, false), DuplicateOrderID)]
  }

  ghost function StopStepRules(cfg: Config, c: StopCmd): seq<Rule> {
    [Rule(!WholeSteps(c.qty, cfg.lot), InvalidLot),
     Rule(!WholeSteps(c.trigger, cfg.tick), InvalidTick),
     Rule(c.typ == Limit && !WholeSteps(c.limit, cfg.tick), InvalidTick)]
  }

  ghost function StopRules(e: Engine, c: StopCmd, now: int): seq<Rule> {
    StopFirstRules(e, c) + (ExpiryRules(e.cfg, c.tif, c.expireAt, now) + (QtyRules(e.cfg, c.trigger, c.qty) + StopStepRules(e.cfg, c)))
  }

  lemma StopFirstExactly(e: Engine, c: StopCmd)
    ensures FirstBroken(StopFirstRules(e, c)) ==
              if !e.state.Open? && !e.state.Halted? then Fail(MarketNotOpen)
              else if !e.cfg.stopOrders || (c.flags.reduceOnly && !e.cfg.reduceOnly) then Fail(FeatureDisabled)
              else if Holds(e.book, c.id) || StopHeld(e.stops, c.id) then Fail(DuplicateOrderID) else Pass
  {
    hide InUse, Holds, StopHeld;
    InUseExactly(e, c.id);
    var r := StopFirstRules(e, c);
    Unrolled(r);
    Unrolled(r[1..]);
    Unrolled(r[2..]);
    Unrolled(r[3..]);
    assert r[4..] == [];
  }

  lemma StopStepsExactly(cfg: Config, c: StopCmd)
    ensures FirstBroken(StopStepRules(cfg, c)) ==
              if !Multiple(c.qty, cfg.lot) then Fail(InvalidLot) else if !Multiple(c.trigger, cfg.tick) then Fail(InvalidTick)
              else if c.typ == Limit && !Multiple(c.limit, cfg.tick) then Fail(InvalidTick) else Pass
  {
    hide WholeSteps, Multiple;
    StepsExactly(c.qty, cfg.lot);
    StepsExactly(c.trigger, cfg.tick);
    StepsExactly(c.limit, cfg.tick);
    var r := StopStepRules(cfg, c);
    Unrolled(r);
    Unrolled(r[1..]);
    Unrolled(r[2..]);
    assert r[3..] == [];
  }

  lemma StopChecked(e: Engine, c: StopCmd, now: int)
    ensures CheckStop(e, c, now) == FirstBroken(StopRules(e, c, now))
  {
    hide FirstBroken, StopFirstRules, ExpiryRules, QtyRules, StopStepRules, Holds, StopHeld, Multiple, ValidateQty, ValidateExpiry;
    StopFirstExactly(e, c);
    ExpiryRulesExactly(e.cfg, c.tif, c.expireAt, now);
    QtyRulesExactly(e.cfg, c.trigger, c.qty);
    StopStepsExactly(e.cfg, c);
    var first, expiry, qtys, steps := StopFirstRules(e, c), ExpiryRules(e.cfg, c.tif, c.expireAt, now), QtyRules(e.cfg, c.trigger, c.qty), StopStepRules(e.cfg, c);
    RulesConcat(qtys, steps);
    RulesConcat(expiry, qtys + steps);
    RulesConcat(first, expiry + (qtys + steps));
  }

  // ----- Refused, or accepted -----

  /** What a refusal does: it says so, and nothing else. */
  predicate Refused(e: Engine, r: Engine, id: OrderId, user: UserId, reason: Reason) {
    r == e.(log := e.log + [OrderRejected(id, user, reason)])
  }

  /** A refused order changes nothing but the log; one that passes is announced with a new number and the quantities it
      was submitted with, unless the book has no slot for it. */
  lemma LimitAnswered(e: Engine, c: LimitCmd, hook: HookAnswer, now: int)
    requires Good(e, [])
    ensures var r := ProcessLimit(e, c, hook, now);
            match FirstBroken(LimitRules(e, c, hook, now))
            case Fail(reason) => Refused(e, r, c.id, c.user, reason)
            case Pass =>
              if !(e.state == Auction && e.cfg.auctions) && CountOrders(e.book) >= e.cfg.nodeCap then Refused(e, r, c.id, c.user, PoolExhausted)
              else |r.log| > |e.log| && r.log[..|e.log|] == e.log
                   && r.log[|e.log|] == OrderAccepted(c.id, c.user, c.side, Limit, 0, c.price, c.qty,
                                                      if c.flags.iceberg && !(e.state == Auction && e.cfg.auctions) then c.display else c.qty,
                                                      c.tif, e.clock + 1)
  {
    hide CheckLimit, FirstBroken, LimitRules, SumBook, WFBook, WFStops, PlaceAndFollow, RestOnly;
    WFSound(e.book, e.clock);
    LimitChecked(e, c, hook, now);
    if CheckLimit(e, c, hook, now).Pass? && CountOrders(e.book) < e.cfg.nodeCap {
      var o := LimitOrder(e.cfg, c, e.clock + 1);
      FollowExtends(e, o, now);
      RestExtends(e, o);
    }
  }

  /** The log goes on from the acceptance. */
  lemma RestExtends(e: Engine, o: Order)
    ensures var r, a := RestOnly(Accept(e, o), o).log, Accept(e, o).log; |r| >= |a| && r[..|a|] == a
  {
    hide DispositionEvents, CanRestIn, Insert;
  }

  lemma FollowExtends(e: Engine, o: Order, now: int)
    ensures var r, a := PlaceAndFollow(e, o, now).log, Accept(e, o).log; |r| >= |a| && r[..|a|] == a
  {
    hide Outcomes, CheckStops, FillsLog, STPLog, DispositionEvents;
    match Traded(Accept(e, o), o)
    case NoTrade =>
    case LastPrice(p) => CheckExtends(Enter(e, o), p, 0, now);
  }

  lemma {:induction false} CheckExtends(e: Engine, price: int, depth: nat, now: int)
    requires depth <= e.cfg.maxCascade
    ensures var r := CheckStops(e, price, depth, now).log; |r| >= |e.log| && r[..|e.log|] == e.log
    decreases e.cfg.maxCascade - depth, 1, 0
  {
    hide FireAll, AllFired, AllUnfired, Halt, CheckBreaker;
    HaltExtends(e, HaltCascadeLimit, price, now);
    if depth < e.cfg.maxCascade {
      var e1 := e.(stops := AllUnfired(e.stops, price));
      FireExtends(e1, AllFired(e.stops, price), price, depth, now);
      HaltExtends(FireAll(e1, AllFired(e.stops, price), price, depth, now), HaltCascadeLimit, price, now);
    }
  }

  lemma HaltExtends(e: Engine, why: HaltType, price: int, now: int)
    ensures var r := Halt(e, why).log; |r| >= |e.log| && r[..|e.log|] == e.log
    ensures var r := CheckBreaker(e, price, now).log; |r| >= |e.log| && r[..|e.log|] == e.log
  {
    hide Circuit.Trips, Circuit.Recorded;
  }

  lemma {:induction false} FireExtends(e: Engine, fired: seq<Stop>, price: int, depth: nat, now: int)
    requires depth < e.cfg.maxCascade
    ensures var r := FireAll(e, fired, price, depth, now).log; |r| >= |e.log| && r[..|e.log|] == e.log
    decreases e.cfg.maxCascade - depth, 0, |fired|
  {
    hide Trigger, TriggerTraded, CheckStops;
    if fired != [] {
      TriggerExtends(e, fired[0], price);
      var e1 := Trigger(e, fired[0], price);
      match TriggerTraded(e, fired[0], price)
      case NoTrade => FireExtends(e1, fired[1..], price, depth, now);
      case LastPrice(q) =>
        CheckExtends(e1, q, depth + 1, now);
        FireExtends(CheckStops(e1, q, depth + 1, now), fired[1..], price, depth, now);
    }
  }

  lemma TriggerExtends(e: Engine, s: Stop, price: int)
    ensures var r := Trigger(e, s, price).log; |r| >= |e.log| && r[..|e.log|] == e.log
    ensures Trigger(e, s, price).cfg == e.cfg
  {
    hide Outcomes, SumBook, FillsLog, STPLog, DispositionEvents;
  }

  // ----- Post-only -----

  ghost predicate NoTradeSince(e: Engine, r: Engine) {
    |r.log| >= |e.log| && r.log[..|e.log|] == e.log && forall i :: |e.log| <= i < |r.log| ==> !r.log[i].TradeFill? && !r.log[i].TradeExecuted?
  }

  /** A limit order that reaches no order of the other side trades with none: that side stays as it was, nothing trades,
      and no stop, position or state changes. */
  lemma UncrossedEntry(e: Engine, o: Order, now: int)
    requires SoundBook(e.book) && o.typ == Limit && o.remain > 0 && !Reaches(e.book, o.side, o.price)
    ensures var r := PlaceAndFollow(e, o, now);
            && r.book.Of(o.side.Opposite()) == e.book.Of(o.side.Opposite()) && NoTradeSince(e, r)
            && r.stops == e.stops && r.positions == e.positions && r.state == e.state
  {
    hide Insert, CanRestIn, CheckStops, SoundBook, FindIn, InfoAt, RestedEvents;
    ReachesBest(e.book, o.side, o.price);
    var m := Start(o, e.book, e.clock + 1);
    assert !Live(m);
    assert Run(m, e.cfg.stpDefault) == m;
    var out := Outcomes(Accept(e, o), o);
    assert out.fills == [] && out.cancels == [];
    QuietClosing(out.book, o, out.disposition);
  }

  lemma QuietClosing(b: Book, o: Order, d: Disposition)
    ensures forall i :: 0 <= i < |DispositionEvents(b, o, [], d)| ==>
              !DispositionEvents(b, o, [], d)[i].TradeFill? && !DispositionEvents(b, o, [], d)[i].TradeExecuted?
  {
    hide FindIn, InfoAt;
  }

  /** A post-only order never takes: whatever the book holds, processing it outside an auction leaves the other side as
      it was and trades nothing. */
  lemma PostOnlyNeverTakes(e: Engine, c: LimitCmd, hook: HookAnswer, now: int)
    requires Good(e, []) && c.flags.postOnly && e.state != Auction
    ensures var r := ProcessLimit(e, c, hook, now);
            && r.book.Of(c.side.Opposite()) == e.book.Of(c.side.Opposite()) && NoTradeSince(e, r)
            && r.stops == e.stops && r.positions == e.positions && r.state == e.state
  {
    hide PlaceAndFollow, RestOnly, Accept, Reaches, SumBook, WFBook, WFStops, CheckLimit;
    WFSound(e.book, e.clock);
    ReachesBest(e.book, c.side, c.price);
    if CheckLimit(e, c, hook, now).Pass? {
      PassedPostOnly(e, c, hook, now);
      var o := LimitOrder(e.cfg, c, e.clock + 1);
      UncrossedEntry(e, o, now);
      RestsQuietly(e, o);
    }
  }

  lemma PassedPostOnly(e: Engine, c: LimitCmd, hook: HookAnswer, now: int)
    requires CheckLimit(e, c, hook, now).Pass? && c.flags.postOnly && e.state != Auction
    ensures !WouldCross(e.book, c.side, c.price) && c.qty > 0 && (c.flags.iceberg ==> c.display > 0)
  {
    hide Holds, StopHeld, InAuction, NoLevelLeft, LimitDisabled, OverValue, ValidateExpiry;
  }

  lemma RestsQuietly(e: Engine, o: Order)
    ensures var r := RestOnly(Accept(e, o), o);
            && r.book.Of(o.side.Opposite()) == e.book.Of(o.side.Opposite()) && NoTradeSince(e, r)
            && r.stops == e.stops && r.positions == e.positions && r.state == e.state
  {
    hide Insert, CanRestIn, DispositionEvents;
    QuietClosing(e.book, o, Canceled);
    QuietClosing(Rest(e.book, o), o, Rested);
  }

  /** And it is refused for crossing exactly when it breaks no rule before that one and the other side is reached. */
  lemma PostOnlyRefusedExactly(e: Engine, c: LimitCmd, hook: HookAnswer, now: int)
    requires Good(e, []) && c.flags.postOnly && (hook.HookRefuses? ==> hook.reason != PostOnlyWouldCross)
    ensures Refused(e, ProcessLimit(e, c, hook, now), c.id, c.user, PostOnlyWouldCross)
       <==> && FirstBroken(LimitFeatureRules(e, c)) == Pass && FirstBroken(LimitIdRules(e, c)) == Pass
            && FirstBroken(QtyRules(e.cfg, c.price, c.qty)) == Pass && FirstBroken(LimitStepRules(e.cfg, c)) == Pass
            && FirstBroken(ExpiryRules(e.cfg, c.tif, c.expireAt, now)) == Pass
            && e.state != Auction && Reaches(e.book, c.side, c.price)
  {
    hide FirstBroken, LimitFeatureRules, LimitIdRules, QtyRules, LimitStepRules, ExpiryRules, LimitBookRules, Holds, StopHeld, InAuction,
      LimitDisabled, WouldIncrease, Multiple, ValidateQty, ValidateExpiry, WouldCross, NoLevelLeft, SoundBook, Reaches, ProcessLimit, WFBook, WFStops, SumBook;
    WFSound(e.book, e.clock);
    ReachesBest(e.book, c.side, c.price);
    FeatureRulesExactly(e, c);
    IdRulesExactly(e, c);
    StepRulesExactly(e.cfg, c);
    ExpiryRulesExactly(e.cfg, c.tif, c.expireAt, now);
    QtyRulesExactly(e.cfg, c.price, c.qty);
    OtherReasons(e.cfg, c, now);
    LimitAnswered(e, c, hook, now);
    LimitChecked(e, c, hook, now);
    hide Refused;
    var r := ProcessLimit(e, c, hook, now);
    RefusedSays(e, r, c.id, c.user, PostOnlyWouldCross);
    RefusedSays(e, r, c.id, c.user, PoolExhausted);
    match CheckLimit(e, c, hook, now)
    case Fail(reason) => RefusedSays(e, r, c.id, c.user, reason);
    case Pass =>
  }

  lemma RefusedSays(e: Engine, r: Engine, id: OrderId, user: UserId, reason: Reason)
    requires |r.log| > |e.log|
    ensures Refused(e, r, id, user, reason) ==> r.log[|e.log|] == OrderRejected(id, user, reason)
  {
  }

  lemma OtherReasons(cfg: Config, c: LimitCmd, now: int)
    ensures ValidateQty(cfg, c.price, c.qty) != Fail(PostOnlyWouldCross) && ValidateExpiry(cfg, c.tif, c.expireAt, now) != Fail(PostOnlyWouldCross)
  {
    hide OverValue;
  }
}
