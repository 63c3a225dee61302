/** Signed net positions: what each user bought minus what it sold. */
module Positions {
  import opened Domain

  function Position(ps: map<UserId, int>, user: UserId): int {
    if user in ps then ps[user] else 0
  }

  function AddPosition(ps: map<UserId, int>, user: UserId, delta: int): map<UserId, int> {
    ps[user := Position(ps, user) + delta]
  }

  /** The bid side of a fill buys its quantity, the ask side sells it. */
  function ApplyFill(ps: map<UserId, int>, f: Fill): map<UserId, int> {
    var signed := if f.makerSide == Bid then f.qty else -f.qty;
    AddPosition(AddPosition(ps, f.makerUser, signed), f.takerUser, -signed)
  }

  function ApplyFills(ps: map<UserId, int>, fills: seq<Fill>): map<UserId, int> {
    if fills == [] then ps else ApplyFill(ApplyFills(ps, fills[..|fills| - 1]), fills[|fills| - 1])
  }

  /** The order would leave its user long after a buy, or short after a sell. */
  predicate WouldIncrease(ps: map<UserId, int>, user: UserId, side: Side, qty: int) {
    if side == Bid then Position(ps, user) + qty > 0 else Position(ps, user) - qty < 0
  }

  /** The positions of these users, summed. */
  ghost function NetOf(ps: map<UserId, int>, users: set<UserId>): int {
    if users == {} then 0 else
      var u :| u in users;
      Position(ps, u) + NetOf(ps, users - {u})
  }

  /** Everybody's positions, summed. */
  ghost function Net(ps: map<UserId, int>): int {
    NetOf(ps, ps.Keys)
  }

  /** The sum does not depend on the order in which users are visited. */
  lemma {:induction false} NetWithout(ps: map<UserId, int>, users: set<UserId>, u: UserId)
    requires u in users
    ensures NetOf(ps, users) == Position(ps, u) + NetOf(ps, users - {u})
  {
    var v :| v in users && NetOf(ps, users) == Position(ps, v) + NetOf(ps, users - {v});
    if v != u {
      NetWithout(ps, users - {v}, u);
      NetWithout(ps, users - {u}, v);
      assert users - {v} - {u} == users - {u} - {v};
    }
  }

  /** Users whose positions agree have the same sum. */
  lemma {:induction false} NetSame(ps: map<UserId, int>, qs: map<UserId, int>, users: set<UserId>)
    requires forall u :: u in users ==> Position(ps, u) == Position(qs, u)
    ensures NetOf(ps, users) == NetOf(qs, users)
  {
    if users != {} {
      var u :| u in users;
      NetWithout(ps, users, u);
      NetWithout(qs, users, u);
      NetSame(ps, qs, users - {u});
    }
  }

  /** Adding to one position adds to the sum. */
  lemma NetAdds(ps: map<UserId, int>, user: UserId, delta: int)
    ensures Net(AddPosition(ps, user, delta)) == Net(ps) + delta
  {
    var qs := AddPosition(ps, user, delta);
    var others := ps.Keys - {user};
    assert qs.Keys - {user} == others && qs.Keys == ps.Keys + {user};
    NetWithout(qs, qs.Keys, user);
    NetSame(ps, qs, others);
    if user in ps {
      NetWithout(ps, ps.Keys, user);
    } else {
      assert ps.Keys == others;
    }
  }

  /** What one side buys the other sells: no list of fills changes the sum. */
  lemma {:induction false} FillsKeepNet(ps: map<UserId, int>, fills: seq<Fill>)
    ensures Net(ApplyFills(ps, fills)) == Net(ps)
  {
    hide Net;
    if fills != [] {
      var f := fills[|fills| - 1];
      var signed := if f.makerSide == Bid then f.qty else -f.qty;
      var before := ApplyFills(ps, fills[..|fills| - 1]);
      FillsKeepNet(ps, fills[..|fills| - 1]);
      NetAdds(before, f.makerUser, signed);
      NetAdds(AddPosition(before, f.makerUser, signed), f.takerUser, -signed);
    }
  }

  class PositionTracker {
    var positions: map<UserId, int>

    constructor ()
      ensures positions == map[]
    {
      positions := map[];
    }

    method Add(user: UserId, delta: int)
      modifies this
      ensures positions == AddPosition(old(positions), user, delta)
    {
      var pos := Position(positions, user);
      positions := positions[user := pos + delta];
    }

    /** Update maker and taker after a trade. */
    method ApplyOne(f: Fill)
      modifies this
      ensures positions == ApplyFill(old(positions), f)
    {
      var makerDelta, takerDelta := f.qty, f.qty;
      if f.makerSide == Ask {
        makerDelta := -makerDelta;
      } else {
        takerDelta := -takerDelta;
      }
      Add(f.makerUser, makerDelta);
      Add(f.takerUser, takerDelta);
    }
  }
}
