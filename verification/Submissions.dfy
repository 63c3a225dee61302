/** What becomes of an order or stop that passes its checks: it rests, waits or trades as it was submitted. */
module Submissions {
  import opened Domain
  import opened BookSpec
  import opened BookLemmas
  import opened MatchSpec
  import opened MatchTheorems
  import opened MatchQuantities
  import opened PlaceEffects
  import opened StopSpec
  import opened StopFiling
  import opened Positions
  import opened EngineSpec
  import opened EngineInvariants
  import opened EngineSteps
  import opened EngineCommands
  import opened EngineRuns
  import opened EngineTheorems
  import opened Admission
  import ReduceOnly

  // ----- Limit orders that rest -----

  /** The order as it was submitted, nothing of it filled: an iceberg shows its display and keeps the rest back. */
  predicate AsSubmitted(o: Order, c: LimitCmd, cfg: Config, number: nat) {
    && o.id == c.id && o.user == c.user && o.side == c.side && o.price == c.price && o.tif == c.tif && o.stp == c.stp && o.typ == Limit
    && o.seqNum == number && o.filled == 0 && o.origQty == c.qty && o.remain + o.hidden == c.qty && o.display == o.remain
    && o.remain == (if c.flags.iceberg then c.display else c.qty) && o.iceberg == c.flags.iceberg
    && o.expireAt == if c.tif == DAY then cfg.sessionEnd else c.expireAt
  }

  lemma {:induction false} FindInserted(ls: seq<Level>, o: Order)
    requires FindIn(ls, o.id) == Missing
    ensures FindIn(Insert(ls, o), o.id) == Found(o)
  {
    if ls == [] {
      assert FindFrom([o], o.id) == Found(o);
    } else if ls[0].price == o.price {
      FoundLast(ls[0].orders, o);
    } else if Better(o.side, o.price, ls[0].price) {
      assert FindFrom([o], o.id) == Found(o);
    } else {
      FindInserted(ls[1..], o);
      assert Insert(ls, o)[1..] == Insert(ls[1..], o);
    }
  }

  lemma {:induction false} FoundLast(os: seq<Order>, o: Order)
    requires FindFrom(os, o.id) == Missing
    ensures FindFrom(os + [o], o.id) == Found(o)
  {
    if os == [] {
      assert os + [o] == [o];
    } else {
      assert (os + [o])[0] == os[0] && (os + [o])[1..] == os[1..] + [o];
      FoundLast(os[1..], o);
    }
  }

  lemma RestedFound(b: Book, o: Order)
    requires !Holds(b, o.id)
    ensures Find(Rest(b, o), o.id) == Found(o)
  {
    hide Insert, FindIn;
    FindInNone(b.bids, o.id);
    FindInNone(b.asks, o.id);
    SideCount(b.bids, o.id);
    SideCount(b.asks, o.id);
    FindInserted(b.Of(o.side), o);
  }

  /** An accepted order that is not matched - before the open, while halted, or because it reaches nobody - rests as it
      was submitted, at the tail of its price, if it is good for more than the moment; nothing else in the book changes. */
  lemma RestsAsSubmitted(e: Engine, c: LimitCmd, hook: HookAnswer, now: int)
    requires Good(e, []) && FirstBroken(LimitRules(e, c, hook, now)) == Pass && CountOrders(e.book) < e.cfg.nodeCap
    requires e.state == PreOpen || e.state == Halted || (e.state == Open && !Reaches(e.book, c.side, c.price))
    requires c.tif == GTC || c.tif == GTD || c.tif == DAY
    ensures var r := ProcessLimit(e, c, hook, now);
            exists o :: Find(r.book, c.id) == Found(o) && AsSubmitted(o, c, e.cfg, e.clock + 1) && r.book == e.book.With(c.side, Insert(e.book.Of(c.side), o))
  {
    hide LimitRules, FirstBroken, CheckLimit, SumBook, WFBook, WFStops, Reaches, Insert, Find, HasLevel, Holds, PlaceAndFollow;
    WFSound(e.book, e.clock);
    ReachesBest(e.book, c.side, c.price);
    LimitChecked(e, c, hook, now);
    PassedParts(e, c, hook, now);
    var o := LimitOrder(e.cfg, c, e.clock + 1);
    RestedFound(e.book, o);
    assert AsSubmitted(o, c, e.cfg, e.clock + 1);
    if e.state == Open {
      UncrossedRests(e, o, now);
    }
  }

  lemma PassedParts(e: Engine, c: LimitCmd, hook: HookAnswer, now: int)
    requires CheckLimit(e, c, hook, now).Pass? && c.tif.CanRest() && !e.state.Auction? && !e.state.Closed?
    ensures !Holds(e.book, c.id) && c.qty > 0 && (c.flags.iceberg ==> c.display > 0)
    ensures (e.state.Open? && WouldCross(e.book, c.side, c.price)) || HasLevel(e.book.Of(c.side), c.price) || Levels(e.book) < e.cfg.levelCap
  {
    hide Holds, StopHeld, InAuction, LimitDisabled, OverValue, ValidateExpiry, HasLevel, WouldCross;
  }

  lemma UncrossedRests(e: Engine, o: Order, now: int)
    requires o.typ == Limit && o.tif.CanRest() && o.remain > 0 && !WouldCross(e.book, o.side, o.price) && CanRestIn(e.book, o, e.cfg.levelCap)
    ensures PlaceAndFollow(e, o, now).book == Rest(e.book, o)
  {
    hide Insert, HasLevel, CheckStops, FindIn, InfoAt, RestedEvents;
    var m := Start(o, e.book, e.clock + 1);
    assert !Live(m) && Run(m, e.cfg.stpDefault) == m;
    assert e.book.With(o.side.Opposite(), m.opp) == e.book;
  }

  // ----- Market orders -----

  /** A market order is refused for the first rule it breaks, or for want of a slot; else it is announced, and moves its
      user's position in its direction by at most its quantity. */
  lemma MarketAnswered(e: Engine, c: MarketCmd, now: int)
    requires Good(e, [])
    ensures var r := ProcessMarket(e, c, now);
            match FirstBroken(MarketRules(e, c))
            case Fail(reason) => Refused(e, r, c.id, c.user, reason)
            case Pass =>
              if CountOrders(e.book) >= e.cfg.nodeCap then Refused(e, r, c.id, c.user, PoolExhausted)
              else |r.log| > |e.log| && r.log[..|e.log|] == e.log
                   && r.log[|e.log|] == OrderAccepted(c.id, c.user, c.side, Market, 0, 0, c.qty, c.qty, c.tif, e.clock + 1)
  {
    hide CheckMarket, FirstBroken, MarketRules, SumBook, PlaceAndFollow, Good;
    MarketChecked(e, c);
    if CheckMarket(e, c).Pass? && CountOrders(e.book) < e.cfg.nodeCap {
      FollowExtends(e, MarketOrder(c, e.clock + 1), now);
    }
  }

  /** A reduce-only market order that passes its check never takes its user's position across zero or further from it. */
  lemma MarketReducesOnEntry(e: Engine, c: MarketCmd, now: int)
    requires Good(e, []) && FirstBroken(MarketRules(e, c)) == Pass && c.flags.reduceOnly && CountOrders(e.book) < e.cfg.nodeCap
    ensures var was := Position(e.positions, c.user); var r := Position(Enter(e, MarketOrder(c, e.clock + 1)).positions, c.user);
            if c.side == Bid then was <= r <= 0 else 0 <= r <= was
  {
    hide Good, Enter, Admissible, Position, FirstBroken, MarketRules, SumBook;
    MarketChecked(e, c);
    MarketAdmissible(e, c);
    ReduceOnly.EntryGains(e, MarketOrder(c, e.clock + 1), []);
    MarketShrinks(e, c);
  }

  lemma MarketShrinks(e: Engine, c: MarketCmd)
    requires CheckMarket(e, c) == Pass && c.flags.reduceOnly
    ensures !WouldIncrease(e.positions, c.user, c.side, c.qty)
  {
    hide Holds, StopHeld, WouldIncrease;
  }

  // ----- Stops -----

  /** The stop as it was submitted. */
  predicate StopAsSubmitted(s: Stop, c: StopCmd, cfg: Config, number: nat) {
    && s.id == c.id && s.user == c.user && s.side == c.side && s.trigger == c.trigger && s.limit == c.limit && s.qty == c.qty && s.typ == c.typ
    && s.tif == c.tif && s.stp == c.stp && s.seqNum == number && s.expireAt == if c.tif == DAY then cfg.sessionEnd else c.expireAt
  }

  /** A stop is refused for the first rule it breaks, or for want of a node; it takes the processor down when its trigger
      is new and no level is left; else it is announced and waits as it was submitted, and every other stop as before. */
  lemma StopAnswered(e: Engine, c: StopCmd, now: int)
    requires Good(e, [])
    ensures var r := ProcessStop(e, c, now);
            match FirstBroken(StopRules(e, c, now))
            case Fail(reason) => Refused(e, r, c.id, c.user, reason)
            case Pass =>
              if SumBoth(e.stops, OneStop) >= e.cfg.stopCap then Refused(e, r, c.id, c.user, PoolExhausted)
              else if NoStopLevel(e, c.side, c.trigger) then r == e.(clock := e.clock + 1, crashed := true)
              else && r.log == e.log + [OrderAccepted(c.id, c.user, c.side, c.typ, c.trigger, c.limit, c.qty, c.qty, c.tif, e.clock + 1)]
                   && r.book == e.book && r.positions == e.positions && r.state == e.state
                   && FindStop(r.stops, c.id).FoundStop? && StopAsSubmitted(FindStop(r.stops, c.id).stop, c, e.cfg, e.clock + 1)
                   && forall id :: id != c.id ==> FindStop(r.stops, id) == FindStop(e.stops, id)
  {
    hide CheckStop, FirstBroken, StopRules, SumStops, NoStopLevel, AddTo, Good, FindStopIn, Holds;
    StopChecked(e, c, now);
    if CheckStop(e, c, now).Pass? {
      StopUnused(e, c, now);
      var s := StopOf(e.cfg, c, e.clock + 1);
      FindAdded(e.stops.Of(s.side), s, s.id);
      forall id | id != c.id
        ensures FindStopIn(AddTo(e.stops.Of(s.side), s), id) == FindStopIn(e.stops.Of(s.side), id)
      {
        FindAdded(e.stops.Of(s.side), s, id);
      }
    }
  }

  lemma StopUnused(e: Engine, c: StopCmd, now: int)
    requires CheckStop(e, c, now).Pass?
    ensures FindStop(e.stops, c.id) == NoStop
  {
    hide Holds, FindStopIn, ValidateQty, ValidateExpiry, Multiple;
  }
}
