/** The cards a request was computed from: an answer is applied to those cards in every state of a
    run iff no other cards were accepted while it was awaited. */
module RobotCards {
  import opened Wrappers
  import opened RunGames
  import opened RobotProtocol
  import opened RobotAnswers

  ghost predicate CardsAt(s: System, q: Request) { Awaited(s, q) ==> q.cards == s.robots[q.robot].cards }

  /** Every awaited question was computed from the cards that its robot now holds. */
  ghost predicate CardsInv(s: System) { forall q :: CardsAt(s, q) }

  /** A well-dealt message brings a waiting robot some card that its slot does not hold. */
  ghost predicate Redealt(w: World, s: System, e: Event) {
    && e.DealCards? && e.id in s.robots
    && WellDealt(w, s.robots[e.id], e.dealtRound, e.hole, e.board)
    && !Holds(w, s.robots[e.id].cards, Placed(e.dealtRound, e.hole, e.board).value.0,
      Placed(e.dealtRound, e.hole, e.board).value.1)
    && exists q: Request :: q.robot == e.id && Awaited(s, q)
  }

  lemma DealExactly(w: World, s: System, e: Event)
    requires Inv(w, s) && CardsInv(s) && e.DealCards?
    ensures CardsInv(Step(w, s, e)) <==> !Redealt(w, s, e)
  {
    var t := Step(w, s, e);
    if e.id in s.robots {
      SaveExactly(w, s.robots[e.id], e.dealtRound, e.hole, e.board);
      assert RobotInv(w, e.id, s.robots[e.id], s.flight);
    }
    if Redealt(w, s, e) {
      var q: Request :| q.robot == e.id && Awaited(s, q);
      assert CardsAt(s, q) && !CardsAt(t, q);
    } else {
      forall q ensures CardsAt(t, q) { assert CardsAt(s, q); }
    }
  }

  lemma BeginCards(w: World, s: System, e: Event)
    requires Inv(w, s) && CardsInv(s) && e.BeginHand? && FreshEvent(w, s, e)
    ensures CardsInv(Step(w, s, e))
  {
    var t := Step(w, s, e);
    forall q ensures CardsAt(t, q) { assert CardsAt(s, q); }
  }

  lemma AskCards(w: World, s: System, e: Event)
    requires Inv(w, s) && CardsInv(s) && e.Ask?
    ensures CardsInv(Step(w, s, e))
  {
    var t := Step(w, s, e);
    forall q ensures CardsAt(t, q) {
      assert CardsAt(s, q);
      if q.robot in s.robots { assert RobotInv(w, q.robot, s.robots[q.robot], s.flight); }
    }
  }

  lemma ActCards(w: World, s: System, e: Event)
    requires CardsInv(s) && e.Act?
    ensures CardsInv(Step(w, s, e))
  {
    var t := Step(w, s, e);
    if e.id in s.robots { ApplyExactly(w, s.robots[e.id], e.uid, e.kind, e.num); }
    forall q ensures CardsAt(t, q) { assert CardsAt(s, q); }
  }

  lemma TickCards(w: World, s: System, e: Event)
    requires CardsInv(s) && (e.Tick? || e.Lose?)
    ensures CardsInv(Step(w, s, e))
  {
    var t := Step(w, s, e);
    forall q ensures CardsAt(t, q) { assert CardsAt(s, q); }
  }

  lemma RespondCards(w: World, s: System, e: Event)
    requires CardsInv(s) && e.Respond?
    ensures CardsInv(Step(w, s, e))
  {
    var t, asked := Step(w, s, e), e.request;
    if asked.robot in s.robots { AnswerFrame(w, s.robots[asked.robot], asked, e.decoded); }
    forall q ensures CardsAt(t, q) {
      assert CardsAt(s, q);
      assert q in t.flight ==> q in s.flight;
    }
  }

  /** A step leaves the questions and the cards in agreement iff it does not deal again. */
  lemma CardsExactly(w: World, s: System, e: Event)
    requires Inv(w, s) && CardsInv(s) && FreshEvent(w, s, e)
    ensures CardsInv(Step(w, s, e)) <==> !Redealt(w, s, e)
  {
    match e
    case BeginHand(_, _, _, _, _, _, _, _) => BeginCards(w, s, e);
    case DealCards(_, _, _, _) => DealExactly(w, s, e);
    case Act(_, _, _, _) => ActCards(w, s, e);
    case Ask(_, _) => AskCards(w, s, e);
    case Respond(_, _) => RespondCards(w, s, e);
    case Lose(_) => TickCards(w, s, e);
    case Tick(_, _, _) => TickCards(w, s, e);
  }

  // ----- applied answers -----

  /** Some answer, if it came in now, would be applied to other cards than it was computed from. */
  ghost predicate Exposed(w: World, s: System) {
    exists q, decoded :: Applied(w, s, q, decoded) && q.cards != s.robots[q.robot].cards
  }

  lemma AppliedToItsCards(w: World, s: System, q: Request, decoded: Option<Action>)
    requires Inv(w, s) && CardsInv(s) && Applied(w, s, q, decoded)
    ensures q.history == s.robots[q.robot].history && q.cards == s.robots[q.robot].cards
  {
    AppliedWhereComputed(w, s, q, decoded);
    assert RobotInv(w, q.robot, s.robots[q.robot], s.flight);
    assert CardsAt(s, q);
  }

  /** After dealing again, the answer to fold, for one, is applied to cards it was not computed from. */
  lemma RedealtExposes(w: World, s: System, e: Event)
    requires Inv(w, s) && CardsInv(s) && Redealt(w, s, e)
    ensures Exposed(w, Step(w, s, e))
  {
    var t := Step(w, s, e);
    var r := s.robots[e.id];
    assert RobotInv(w, e.id, r, s.flight);
    SaveExactly(w, r, e.dealtRound, e.hole, e.board);
    var q: Request :| q.robot == e.id && Awaited(s, q);
    assert CardsAt(s, q);
    var now := t.robots[e.id];
    assert now == r.(cards := now.cards) && now.cards != q.cards && Matches(w, r, q);
    ApplyExactly(w, now, now.id, Fold, 0);
    assert Applied(w, t, q, Some(Action(Fold, 0)));
  }

  // ----- whole runs -----

  /** Event i of the run deals a waiting robot other cards. */
  ghost predicate RedealtAt(w: World, es: seq<Event>, i: nat)
    requires i < |es|
  {
    Redealt(w, Run(w, INITIAL, es[..i]), es[i])
  }

  ghost predicate NeverRedealt(w: World, es: seq<Event>, n: nat)
    requires n <= |es|
  {
    forall i :: 0 <= i < n ==> !RedealtAt(w, es, i)
  }

  /** In every state of a run with fresh hand ids and no second deal so far, the questions awaited
      were computed from the cards held. */
  lemma {:induction false} CardsReachable(w: World, es: seq<Event>, n: nat)
    requires n <= |es| && FreshRun(w, INITIAL, es) && NeverRedealt(w, es, n)
    ensures Inv(w, Run(w, INITIAL, es[..n])) && CardsInv(Run(w, INITIAL, es[..n]))
  {
    if n > 0 {
      CardsReachable(w, es, n - 1);
      assert es[..n][..n - 1] == es[..n - 1] && !RedealtAt(w, es, n - 1);
      StepKeeps(w, Run(w, INITIAL, es[..n - 1]), es[n - 1]);
      CardsExactly(w, Run(w, INITIAL, es[..n - 1]), es[n - 1]);
    }
  }

  /** The first time that a waiting robot is dealt other cards. */
  lemma {:induction false} FirstRedealt(w: World, es: seq<Event>, n: nat) returns (first: nat)
    requires n <= |es| && !NeverRedealt(w, es, n)
    ensures first < n && NeverRedealt(w, es, first) && RedealtAt(w, es, first)
  {
    if NeverRedealt(w, es, n - 1) {
      first := n - 1;
    } else {
      first := FirstRedealt(w, es, n - 1);
    }
  }

  lemma NeverExposed(w: World, s: System)
    requires Inv(w, s) && CardsInv(s)
    ensures !Exposed(w, s)
  {
    forall q, decoded | Applied(w, s, q, decoded) ensures q.cards == s.robots[q.robot].cards {
      AppliedToItsCards(w, s, q, decoded);
    }
  }

  /** Over a run with fresh hand ids an answer can be applied to other cards than it was computed
      from, in some state, iff a robot was dealt other cards while it waited. */
  lemma AppliedCardsExactly(w: World, es: seq<Event>)
    requires FreshRun(w, INITIAL, es)
    ensures (exists n :: 0 <= n <= |es| && Exposed(w, Run(w, INITIAL, es[..n]))) <==>
      (exists i :: 0 <= i < |es| && RedealtAt(w, es, i))
  {
    if NeverRedealt(w, es, |es|) {
      forall n | 0 <= n <= |es| ensures !Exposed(w, Run(w, INITIAL, es[..n])) {
        CardsReachable(w, es, n);
        NeverExposed(w, Run(w, INITIAL, es[..n]));
      }
    } else {
      var n := FirstRedealt(w, es, |es|);
      CardsReachable(w, es, n);
      RedealtExposes(w, Run(w, INITIAL, es[..n]), es[n]);
      assert es[..n + 1][..n] == es[..n];
      assert Exposed(w, Run(w, INITIAL, es[..n + 1]));
    }
  }
}
