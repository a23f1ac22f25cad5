/** Late answers over whole runs: once a robot gives up waiting, the answer has no effect. */
module RobotAnswers {
  import opened Wrappers
  import opened RunGames
  import opened RobotProtocol

  /** A record in an error state. */
  predicate Stuck(r: Robot) { r.run != Waiting && r.run != Ready }

  /** The robot of q is gone, plays another hand, or has left the hand in an error state. */
  predicate Stale(s: System, q: Request) {
    q.robot in s.robots ==>
      var r := s.robots[q.robot];
      r.hand != q.hand || Stuck(r)
  }

  /** A request in flight is awaited or stale: no third case, and not both. */
  lemma AwaitedOrStale(w: World, s: System, q: Request)
    requires Inv(w, s) && q in s.flight
    ensures Stale(s, q) <==> !Awaited(s, q)
  {
    if q.robot in s.robots { assert RobotInv(w, q.robot, s.robots[q.robot], s.flight); }
  }

  /** The events that end the wait for q without an answer: the record expires or its wait is late, a
      new hand starts, cards are refused, or somebody else acts although it is the robot's turn. */
  predicate GivesUp(w: World, s: System, e: Event, q: Request)
    requires q.robot in s.robots
  {
    match e
    case BeginHand(id, _, _, _, modelSet, _, _, _) => id == q.robot && modelSet && NO_LIMIT_2P in w.games
    case DealCards(id, round, hole, board) => id == q.robot && !WellDealt(w, s.robots[id], round, hole, board)
    case Act(id, uid, _, _) => id == q.robot && uid != id
    case Tick(id, expired, late) => id == q.robot && (expired || late)
    case _ => false
  }

  /** While a question is awaited, an action of anybody but the robot is refused. */
  lemma ActGivesUp(w: World, s: System, e: Event, q: Request)
    requires Inv(w, s) && Awaited(s, q) && e.Act?
    ensures Stale(Step(w, s, e), q) <==> GivesUp(w, s, e, q)
  {
    assert RobotInv(w, q.robot, s.robots[q.robot], s.flight) && Matches(w, s.robots[q.robot], q);
    ApplyExactly(w, s.robots[q.robot], e.uid, e.kind, e.num);
  }

  lemma TickGivesUp(w: World, s: System, e: Event, q: Request)
    requires Awaited(s, q) && (e.Tick? || e.Ask? || e.Lose?)
    ensures Stale(Step(w, s, e), q) <==> GivesUp(w, s, e, q)
  {
  }

  lemma BeginGivesUp(w: World, s: System, e: Event, q: Request)
    requires Inv(w, s) && FreshEvent(w, s, e) && Awaited(s, q) && e.BeginHand?
    ensures Stale(Step(w, s, e), q) <==> GivesUp(w, s, e, q)
  {
    assert RobotInv(w, q.robot, s.robots[q.robot], s.flight);
  }

  lemma DealGivesUp(w: World, s: System, e: Event, q: Request)
    requires Inv(w, s) && Awaited(s, q) && e.DealCards?
    ensures Stale(Step(w, s, e), q) <==> GivesUp(w, s, e, q)
  {
    assert RobotInv(w, q.robot, s.robots[q.robot], s.flight);
    if e.id == q.robot { SaveFrame(w, s.robots[e.id], e.dealtRound, e.hole, e.board); }
  }

  /** Refused or not, cards change neither the hand nor who is waiting for it. */
  lemma SaveFrame(w: World, r: Robot, round: nat, hole: seq<int>, board: seq<int>)
    ensures var after := SendCards(w, r, round, hole, board);
      after.id == r.id && after.hand == r.hand
        && after.run == if WellDealt(w, r, round, hole, board) then r.run else BadCards
  {
    SaveExactly(w, r, round, hole, board);
  }

  /** The answer to another request of a waiting robot leaves it waiting. */
  lemma RespondGivesUp(w: World, s: System, e: Event, q: Request)
    requires Inv(w, s) && Awaited(s, q) && e.Respond? && q in Step(w, s, e).flight
    ensures Stale(Step(w, s, e), q) <==> GivesUp(w, s, e, q)
  {
    var r := s.robots[q.robot];
    assert RobotInv(w, q.robot, r, s.flight) && s.flight[q] == 1;
    if e.request in s.flight && e.request.robot == q.robot {
      assert !Current(r, e.request);
      assert Answer(w, r, e.request, e.decoded) == (r, None);
    }
  }

  /** An awaited question becomes stale at exactly these events. */
  lemma GivesUpExactly(w: World, s: System, e: Event, q: Request)
    requires Inv(w, s) && FreshEvent(w, s, e) && Awaited(s, q) && q in Step(w, s, e).flight
    ensures Stale(Step(w, s, e), q) <==> GivesUp(w, s, e, q)
  {
    match e
    case BeginHand(_, _, _, _, _, _, _, _) => BeginGivesUp(w, s, e, q);
    case DealCards(_, _, _, _) => DealGivesUp(w, s, e, q);
    case Act(_, _, _, _) => ActGivesUp(w, s, e, q);
    case Respond(_, _) => RespondGivesUp(w, s, e, q);
    case Ask(_, _) => TickGivesUp(w, s, e, q);
    case Lose(_) => TickGivesUp(w, s, e, q);
    case Tick(_, _, _) => TickGivesUp(w, s, e, q);
  }

  /** A response never changes the hand or the cards, and only ends a wait. */
  lemma AnswerFrame(w: World, r: Robot, q: Request, decoded: Option<Action>)
    ensures var after := Answer(w, r, q, decoded).0;
      && after.id == r.id && after.hand == r.hand && after.cards == r.cards
      && (after.run == r.run || (r.run == Waiting && after.run == Ready))
  {
  }

  /** Records never appear, and their hands never change, but by a begin message with a fresh id. */
  lemma BeginStale(w: World, s: System, e: Event, q: Request)
    requires FreshEvent(w, s, e) && q in s.flight && Stale(s, q) && e.BeginHand?
    ensures Stale(Step(w, s, e), q)
  {
  }

  lemma DealStale(w: World, s: System, e: Event, q: Request)
    requires Stale(s, q) && e.DealCards?
    ensures Stale(Step(w, s, e), q)
  {
    if q.robot in s.robots { SaveFrame(w, s.robots[q.robot], e.dealtRound, e.hole, e.board); }
  }

  lemma ActStale(w: World, s: System, e: Event, q: Request)
    requires Stale(s, q) && e.Act?
    ensures Stale(Step(w, s, e), q)
  {
    if q.robot in s.robots { ApplyExactly(w, s.robots[q.robot], e.uid, e.kind, e.num); }
  }

  lemma RespondStale(w: World, s: System, e: Event, q: Request)
    requires Stale(s, q) && e.Respond?
    ensures Stale(Step(w, s, e), q)
  {
    if q.robot in s.robots { AnswerFrame(w, s.robots[q.robot], e.request, e.decoded); }
  }

  lemma TickStale(w: World, s: System, e: Event, q: Request)
    requires Stale(s, q) && (e.Tick? || e.Ask? || e.Lose?)
    ensures Stale(Step(w, s, e), q)
  {
  }

  /** No step with fresh hand ids wakes a stale request up while it is in flight. */
  lemma StaleStays(w: World, s: System, e: Event, q: Request)
    requires FreshEvent(w, s, e) && q in s.flight && Stale(s, q)
    ensures Stale(Step(w, s, e), q)
  {
    match e
    case BeginHand(_, _, _, _, _, _, _, _) => BeginStale(w, s, e, q);
    case DealCards(_, _, _, _) => DealStale(w, s, e, q);
    case Act(_, _, _, _) => ActStale(w, s, e, q);
    case Respond(_, _) => RespondStale(w, s, e, q);
    case Ask(_, _) => TickStale(w, s, e, q);
    case Lose(_) => TickStale(w, s, e, q);
    case Tick(_, _, _) => TickStale(w, s, e, q);
  }

  // ----- every wait has its question -----

  ghost predicate Asking(s: System, id: int)
    requires id in s.robots
  {
    s.robots[id].run == Waiting ==> exists q: Request :: q.robot == id && Awaited(s, q)
  }

  /** Whoever waits has asked: the answer that ends the wait is on its way. */
  ghost predicate EveryWaitAsked(s: System) { forall id :: id in s.robots ==> Asking(s, id) }

  lemma StillAsking(w: World, s: System, t: System, id: int)
    requires id in s.robots && id in t.robots && Asking(s, id) && t.flight >= s.flight
    requires t.robots[id].run == Waiting ==>
      s.robots[id].run == Waiting && t.robots[id].hand == s.robots[id].hand && t.robots[id].id == s.robots[id].id
    ensures Asking(t, id)
  {
    if t.robots[id].run == Waiting {
      var q: Request :| q.robot == id && Awaited(s, q);
      assert t.flight[q] >= s.flight[q] > 0;
      assert Awaited(t, q);
    }
  }

  lemma BeginAsked(w: World, s: System, e: Event)
    requires EveryWaitAsked(s) && e.BeginHand? && !GarbageWait(w, s, e)
    ensures EveryWaitAsked(Step(w, s, e))
  {
    var t := Step(w, s, e);
    forall id | id in t.robots ensures Asking(t, id) {
      if id in s.robots { StillAsking(w, s, t, id); }
    }
  }

  lemma DealAsked(w: World, s: System, e: Event)
    requires EveryWaitAsked(s) && e.DealCards?
    ensures EveryWaitAsked(Step(w, s, e))
  {
    var t := Step(w, s, e);
    if e.id in s.robots { SaveFrame(w, s.robots[e.id], e.dealtRound, e.hole, e.board); }
    forall id | id in t.robots ensures Asking(t, id) { StillAsking(w, s, t, id); }
  }

  lemma ActAsked(w: World, s: System, e: Event)
    requires EveryWaitAsked(s) && e.Act?
    ensures EveryWaitAsked(Step(w, s, e))
  {
    var t := Step(w, s, e);
    if e.id in s.robots { ApplyExactly(w, s.robots[e.id], e.uid, e.kind, e.num); }
    forall id | id in t.robots ensures Asking(t, id) { StillAsking(w, s, t, id); }
  }

  lemma TickAsked(w: World, s: System, e: Event)
    requires EveryWaitAsked(s) && e.Tick?
    ensures EveryWaitAsked(Step(w, s, e))
  {
    var t := Step(w, s, e);
    forall id | id in t.robots ensures Asking(t, id) { StillAsking(w, s, t, id); }
  }

  /** A question that is sent is in flight, and awaited. */
  lemma AskAsked(w: World, s: System, e: Event)
    requires EveryWaitAsked(s) && Inv(w, s) && e.Ask?
    ensures EveryWaitAsked(Step(w, s, e))
  {
    var t := Step(w, s, e);
    forall id | id in t.robots ensures Asking(t, id) {
      if id == e.id && t.robots[id].run == Waiting && s.robots[id].run != Waiting {
        assert RobotInv(w, id, s.robots[id], s.flight);
        assert Awaited(t, Asked(w, s.robots[id]));
      } else {
        StillAsking(w, s, t, id);
      }
    }
  }

  /** An answer takes a question out of flight only if it ends the wait for it or nobody waits for it. */
  lemma RespondAsked(w: World, s: System, e: Event)
    requires EveryWaitAsked(s) && Inv(w, s) && e.Respond?
    ensures EveryWaitAsked(Step(w, s, e))
  {
    var t := Step(w, s, e);
    forall id | id in t.robots ensures Asking(t, id) {
      if t.robots[id].run == Waiting {
        AnswerLeaves(w, s, e, id);
        assert Asking(s, id);
        var q: Request :| q.robot == id && Awaited(s, q);
        assert q in t.flight;
        assert Awaited(t, q);
      }
    }
  }

  lemma AnswerLeaves(w: World, s: System, e: Event, id: int)
    requires Inv(w, s) && e.Respond? && id in s.robots && id in Step(w, s, e).robots
    requires Step(w, s, e).robots[id].run == Waiting
    ensures var r := s.robots[id];
      && r.run == Waiting && Step(w, s, e).robots[id].hand == r.hand && Step(w, s, e).robots[id].id == r.id
      && (e.request.robot == id && e.request in s.flight ==> !Awaited(s, e.request))
  {
    var q := e.request;
    if q in s.flight && q.robot == id {
      AnswerFrame(w, s.robots[id], q, e.decoded);
      if Awaited(s, q) { AnswerEndsWait(w, s, q, e.decoded); }
    }
  }

  lemma StepAsked(w: World, s: System, e: Event)
    requires EveryWaitAsked(s) && Inv(w, s) && !e.Lose? && !GarbageWait(w, s, e)
    ensures EveryWaitAsked(Step(w, s, e))
  {
    match e
    case BeginHand(_, _, _, _, _, _, _, _) => BeginAsked(w, s, e);
    case DealCards(_, _, _, _) => DealAsked(w, s, e);
    case Act(_, _, _, _) => ActAsked(w, s, e);
    case Ask(_, _) => AskAsked(w, s, e);
    case Respond(_, _) => RespondAsked(w, s, e);
    case Tick(_, _, _) => TickAsked(w, s, e);
  }

  /** In every state of a run with fresh hand ids, without lost requests and garbage waits: whoever
      waits has a question in flight whose answer, whatever it is, ends the wait. */
  lemma {:induction false} WaitsEnd(w: World, es: seq<Event>)
    requires FreshRun(w, INITIAL, es)
    requires forall i :: 0 <= i < |es| ==> !es[i].Lose? && !GarbageWait(w, Run(w, INITIAL, es[..i]), es[i])
    ensures Inv(w, Run(w, INITIAL, es)) && EveryWaitAsked(Run(w, INITIAL, es))
    decreases |es|
  {
    Reachable(w, es);
    if es != [] {
      var last := |es| - 1;
      var before := es[..last];
      forall i | 0 <= i < last ensures before[..i] == es[..i] && before[i] == es[i] {}
      assert FreshRun(w, INITIAL, before);
      WaitsEnd(w, before);
      StepAsked(w, Run(w, INITIAL, before), es[last]);
    }
  }

  /** Storing a record that is there already changes nothing. */
  lemma SameRecord(s: System, id: int)
    requires id in s.robots
    ensures Update(s, id, s.robots[id], false) == s
  {
    assert s.robots[id := s.robots[id]] == s.robots;
    assert s.replied + Times(id, 0) == s.replied && s.dropped + Times(id, 0) == s.dropped;
  }

  /** The answer to a stale request takes it out of flight and does nothing else: no record changes,
      nothing is sent, and no tally moves. */
  lemma StaleAnswer(w: World, s: System, q: Request, decoded: Option<Action>)
    requires q in s.flight && Stale(s, q)
    ensures Step(w, s, Respond(q, decoded)) == s.(flight := s.flight - multiset{q})
  {
    if q.robot in s.robots {
      var r := s.robots[q.robot];
      assert Answer(w, r, q, decoded) == (r, None);
      SameRecord(s.(flight := s.flight - multiset{q}), q.robot);
    }
  }

  /** q is in flight in every state of the run. */
  ghost predicate StaysInFlight(w: World, s: System, es: seq<Event>, q: Request) {
    forall n :: 0 <= n <= |es| ==> q in Run(w, s, es[..n]).flight
  }

  lemma {:induction false} StaleOverRun(w: World, s: System, es: seq<Event>, q: Request)
    requires Inv(w, s) && Stale(s, q) && FreshRun(w, s, es) && StaysInFlight(w, s, es, q)
    ensures Inv(w, Run(w, s, es)) && Stale(Run(w, s, es), q)
    decreases |es|
  {
    assert es[..|es|] == es;
    if es != [] {
      var last := |es| - 1;
      var before := es[..last];
      forall i | 0 <= i <= last ensures before[..i] == es[..i] {}
      forall i | 0 <= i < last ensures FreshEvent(w, Run(w, s, before[..i]), before[i]) {}
      StaleOverRun(w, s, before, q);
      assert FreshEvent(w, Run(w, s, before), es[last]) && q in Run(w, s, before).flight;
      StaleStays(w, Run(w, s, before), es[last], q);
      StepKeeps(w, Run(w, s, before), es[last]);
    }
  }

  /** Whatever happens after a robot gave up on a question, with fresh hand ids: an answer that comes
      in later changes nothing and sends nothing. */
  lemma LateAnswer(w: World, s: System, e: Event, es: seq<Event>, q: Request, decoded: Option<Action>)
    requires Inv(w, s) && Awaited(s, q) && FreshEvent(w, s, e) && GivesUp(w, s, e, q)
    requires FreshRun(w, Step(w, s, e), es) && StaysInFlight(w, Step(w, s, e), es, q)
    ensures var t := Run(w, Step(w, s, e), es);
      Step(w, t, Respond(q, decoded)) == t.(flight := t.flight - multiset{q})
  {
    var given := Step(w, s, e);
    assert q in Run(w, given, es[..0]).flight && q in Run(w, given, es[..|es|]).flight && es[..|es|] == es;
    GivesUpExactly(w, s, e, q);
    StepKeeps(w, s, e);
    StaleOverRun(w, given, es, q);
    StaleAnswer(w, Run(w, given, es), q, decoded);
  }
}
