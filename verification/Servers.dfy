/** The server object: the running games by robot, and the handler of every message and timer. */
module Servers {
  import opened RunGames
  import opened RobotProtocol
  import opened RobotCards

  ghost predicate Separate(games: map<int, RunGame>) {
    forall i, j :: i in games && j in games && games[i] == games[j] ==> i == j
  }

  ghost function Records(games: map<int, RunGame>): map<int, Robot>
    reads games.Values
  {
    map id | id in games :: games[id].View()
  }

  lemma Replaced(games: map<int, RunGame>, was: map<int, Robot>, id: int)
    requires games.Keys == was.Keys + {id}
    requires forall j :: j in games && j != id ==> games[j].View() == was[j]
    ensures Records(games) == was[id := games[id].View()]
  {
    var now := was[id := games[id].View()];
    forall j | j in games ensures Records(games)[j] == now[j] {}
  }

  lemma Kept(games: map<int, RunGame>, was: map<int, Robot>)
    requires games.Keys == was.Keys && forall j :: j in games ==> games[j].View() == was[j]
    ensures Records(games) == was
  {
    forall j | j in games ensures Records(games)[j] == was[j] {}
  }

  /** flight is what the CFR server has been asked and has not answered. */
  class Server {
    var games: map<int, RunGame>
    var flight: multiset<Request>
    ghost var accepted: multiset<int>
    ghost var replied: multiset<int>
    ghost var dropped: multiset<int>

    /** Every robot has its own record. */
    ghost predicate Valid()
      reads this
    {
      Separate(games)
    }

    ghost function View(): System
      reads this, games.Values
    {
      System(Records(games), flight, accepted, replied, dropped)
    }

    constructor ()
      ensures Valid() && View() == INITIAL && games == map[]
    {
      games, flight, accepted, replied, dropped := map[], multiset{}, multiset{}, multiset{}, multiset{};
    }

    /** The one record that a handler touched is replaced, and the books are kept. */
    ghost method Settle(was: System, id: int, answered: bool)
      requires games.Keys == was.robots.Keys + {id}
      requires forall j :: j in games && j != id ==> games[j].View() == was.robots[j]
      requires flight == was.flight && accepted == was.accepted
      modifies this`replied, this`dropped
      ensures View() == Update(was, id, games[id].View(), answered)
    {
      var now := Update(was, id, games[id].View(), answered);
      replied, dropped := now.replied, now.dropped;
      Replaced(games, was.robots, id);
    }

    method OnBegin(w: World, e: Event)
      requires Valid() && e.BeginHand?
      modifies this, games.Values
      ensures Valid() && View() == BeginStep(w, old(View()), e)
      ensures fresh(games.Values - old(games.Values))
    {
      if e.id == 0 || (e.id !in games && !e.added) { return; }
      if e.id in games {
        BeginAgain(w, e);
      } else {
        BeginFirst(w, e);
      }
    }

    method BeginAgain(w: World, e: Event)
      requires Valid() && e.BeginHand? && e.id != 0 && e.id in games
      modifies this, games.Values
      ensures Valid() && View() == BeginStep(w, old(View()), e) && games == old(games)
    {
      GameBeginNotify(w, games[e.id], e.hand, e.banker, e.player, e.modelSet);
      Settle(old(View()), e.id, false);
    }

    method BeginFirst(w: World, e: Event)
      requires Valid() && e.BeginHand? && e.id != 0 && e.id !in games && e.added
      modifies this
      ensures Valid() && View() == BeginStep(w, old(View()), e)
      ensures fresh(games.Values - old(games.Values))
    {
      var g := new RunGame(e.id, e.run, e.actionSeq);
      games := games[e.id := g];
      GameBeginNotify(w, g, e.hand, e.banker, e.player, e.modelSet);
      Settle(old(View()), e.id, false);
    }

    method OnCards(w: World, e: Event)
      requires Valid() && e.DealCards?
      modifies this, games.Values
      ensures Valid() && View() == DealStep(w, old(View()), e) && games == old(games)
    {
      if e.id == 0 || e.id !in games { return; }
      var g := games[e.id];
      GameSendCardsNotify(w, g, e.dealtRound, e.hole, e.board);
      Settle(old(View()), e.id, false);
    }

    method OnAction(w: World, e: Event)
      requires Valid() && e.Act?
      modifies this, games.Values
      ensures Valid() && View() == ActStep(w, old(View()), e) && games == old(games)
    {
      if e.id == 0 || e.id !in games { return; }
      var g := games[e.id];
      GameActionNotify(w, g, e.uid, e.kind, e.num);
      Settle(old(View()), e.id, false);
    }

    method OnAsk(w: World, e: Event)
      requires Valid() && e.Ask?
      modifies this, games.Values
      ensures Valid() && View() == AskStep(w, old(View()), e) && games == old(games)
    {
      if e.id == 0 || e.id !in games { return; }
      var g := games[e.id];
      var sent := g.DoQueryRobotAction(w, e.sendable);
      if sent.Some? {
        flight := flight + multiset{sent.value};
        accepted := accepted + Times(e.id, 1);
        Settle(old(View()).(flight := flight, accepted := accepted), e.id, false);
      } else {
        Kept(games, old(Records(games)));
      }
    }

    method OnResponse(w: World, e: Event)
      requires Valid() && e.Respond?
      modifies this, games.Values
      ensures Valid() && View() == RespondStep(w, old(View()), e) && games == old(games)
    {
      var q := e.request;
      if q !in flight { return; }
      flight := flight - multiset{q};
      ghost var rest := old(View()).(flight := flight);
      if q.robot !in games { return; }
      var g := games[q.robot];
      var sent := QueryActionResp(w, g, q, e.decoded);
      Settle(rest, q.robot, sent.Some?);
    }

    method OnTimer(e: Event)
      requires Valid() && e.Tick?
      modifies this, games.Values
      ensures Valid() && View() == TickStep(old(View()), e) && games.Values <= old(games.Values)
    {
      if e.id !in games { return; }
      var g := games[e.id];
      if e.expired {
        dropped := Remove(View(), e.id).dropped;
        games := games - {e.id};
        assert Records(games) == old(Records(games)) - {e.id};
      } else {
        var sent := CheckRunGameTimeout(g, e.late);
        Settle(old(View()), e.id, sent.Some?);
      }
    }

    /** One message, timer or lost request. */
    method Handle(w: World, e: Event)
      requires Valid()
      modifies this, games.Values
      ensures Valid() && View() == Step(w, old(View()), e)
      ensures fresh(games.Values - old(games.Values))
    {
      match e
      case BeginHand(_, _, _, _, _, _, _, _) => OnBegin(w, e);
      case DealCards(_, _, _, _) => OnCards(w, e);
      case Act(_, _, _, _) => OnAction(w, e);
      case Ask(_, _) => OnAsk(w, e);
      case Respond(_, _) => OnResponse(w, e);
      case Lose(q) => flight := flight - multiset{q};
      case Tick(_, _, _) => OnTimer(e);
    }

    method HandleAll(w: World, es: seq<Event>)
      requires Valid() && View() == INITIAL
      modifies this, games.Values
      ensures Valid() && View() == Run(w, INITIAL, es)
    {
      var i := 0;
      while i < |es|
        invariant 0 <= i <= |es| && Valid() && View() == Run(w, INITIAL, es[..i])
        invariant fresh(games.Values - old(games.Values))
      {
        Handle(w, es[i]);
        assert es[..i + 1][..i] == es[..i];
        i := i + 1;
      }
      assert es[..|es|] == es;
    }

    /** Whatever comes in, in any order: the objects go through the run of the transition system, so
        what is proved of its runs holds of them. */
    method Serve(w: World, es: seq<Event>)
      requires Valid() && View() == INITIAL
      modifies this, games.Values
      ensures Valid() && View() == Run(w, INITIAL, es)
      ensures FreshRun(w, INITIAL, es) ==> Inv(w, View())
      ensures FreshRun(w, INITIAL, es) && NeverRedealt(w, es, |es|) ==> CardsInv(View())
    {
      HandleAll(w, es);
      assert es[..|es|] == es;
      if FreshRun(w, INITIAL, es) {
        Reachable(w, es);
        if NeverRedealt(w, es, |es|) { CardsReachable(w, es, |es|); }
      }
    }
  }
}
