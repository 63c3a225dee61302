/** The depth feed under self-trade prevention: exactly when one placement leaves it right. */
module EngineFeed {
  import opened Domain
  import opened BookSpec
  import opened MatchSpec
  import opened MatchTheorems
  import opened MatchQuantities
  import opened FeedScan
  import opened PlaceEffects
  import opened StopSpec
  import opened EngineSpec
  import opened EventFolds
  import opened EngineInvariants
  import opened EngineSteps

  /** Decided on the book as it is before the order: a fill-or-kill that fails its dry run changes nothing;
      otherwise no level may be left changed by self-trade prevention and not traded at since. */
  predicate FeedSurvives(b: Book, o: Order, default: STPMode) {
    var opp := b.Of(o.side.Opposite());
    (o.tif == FOK && Available(o, opp) < o.remain) || FeedKept(o, opp, o.remain, false, default)
  }

  /** What the fills of a placement announce describes the opposite side exactly when the scan says so. */
  lemma PlaceFeedExactly(b: Book, o: Order, clock: nat, default: STPMode, cap: nat)
    requires SoundBook(b) && o.remain > 0
    ensures var out, opp := Place(b, o, clock, default, cap), o.side.Opposite();
            Announces(out.fills, b.Of(opp), out.book.Of(opp)) <==> FeedSurvives(b, o, default)
  {
    hide Run, Place, Available, SoundSide, FeedKept, Announces;
    var opp := o.side.Opposite();
    var m := Start(o, b, clock);
    PlaceShape(b, o, clock, default, cap);
    NothingAnnounced(m);
    RunFeed(m, default, opp, b.Of(opp), false);
    RefusalSilent(b, opp);
  }

  lemma NothingAnnounced(m: Match)
    requires m.fills == []
    ensures InStep(m, m.opp, false)
  {
  }

  lemma RefusalSilent(b: Book, opp: Side)
    ensures Announces([], b.Of(opp), b.Of(opp))
  {
  }

  /** In every self-trade mode: from a right feed, one placement leaves the feed right exactly when the scan
      of the opposite side, made before it, says so. */
  lemma FeedKeptExactly(e: Engine, o: Order, p: seq<Stop>)
    requires Good(e, p) && Admissible(e, o, p) && FeedAgrees(e)
    ensures FeedAgrees(Enter(e, o)) <==> FeedSurvives(e.book, o, e.cfg.stpDefault)
  {
    hide Place, Enter, DepthAfter, InfoAt, Announced, WFBook, SoundBook, MakersOn, FeedSurvives;
    EnterParts(e, o);
    WFSound(e.book, e.clock);
    var r, opp := Enter(e, o), o.side.Opposite();
    var out := Outcomes(Accept(e, o), o);
    PlaceFeedExactly(e.book, o, e.clock + 1, e.cfg.stpDefault, e.cfg.levelCap);
    forall side: Side, price
      ensures side == o.side ==> DepthAfter(NoLevel, r.log, side, price) == InfoAt(r.book.Of(side), price)
      ensures side != o.side ==> DepthAfter(NoLevel, r.log, side, price) == Known(out.fills, e.book.Of(opp), price)
    {
      PlaceOwnDepth(e.book, o, e.clock + 1, e.cfg.stpDefault, e.cfg.levelCap, price);
      EnterDepth(e, o, side, price);
    }
    if FeedAgrees(r) {
      forall price
        ensures Known(out.fills, e.book.Of(opp), price) == InfoAt(out.book.Of(opp), price)
      {
        assert DepthAfter(NoLevel, r.log, opp, price) == InfoAt(r.book.Of(opp), price);
      }
    }
  }
}
