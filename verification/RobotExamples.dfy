/** Three runs in which the promises fail, in a two-player game: what each condition is for. */
module RobotExamples {
  import opened Wrappers
  import opened RunGames
  import opened RobotProtocol

  const TWO_PLAYERS := Engine(2, (h: History) => |h| % 2, (h: History, size: int) => size > 0)

  /** The first betting round without blinds.  A fold finishes the hand. */
  const TABLE := World(map[NO_LIMIT_2P := TWO_PLAYERS], (h: History) => Action(Fold, 0) in h, (h: History) => 0,
                       (h: History, p: nat) => 0, (c: int) => if 0 <= c < 52 then Some(c) else None)

  // ----- a reply that nobody asked for -----

  /** A record left over from a failed begin can send a reply that nobody asked for. */
  lemma UnaskedReply()
    ensures var s := Step(TABLE, Step(TABLE, INITIAL, BeginHand(7, 5, 7, 9, false, true, Waiting, 0)),
      Tick(7, false, true));
      s.replied[7] == 1 && s.accepted[7] == 0
  {
    var s := Step(TABLE, INITIAL, BeginHand(7, 5, 7, 9, false, true, Waiting, 0));
    assert 7 in s.robots && s.robots[7] == NewRobot(7, Waiting, 0);
  }

  // ----- a hand id used twice -----

  /** What the player, who acts first, may open with. */
  predicate Opening(a: Action) { a == Action(Call, 0) || (a.kind == Raise && a.size > 0) }

  /** Hand 5 of robot 7: it begins and the player acts. */
  function PlayerActed(s: System, a: Action): System {
    Step(TABLE, Step(TABLE, s, BeginHand(7, 5, 7, 9, true, true, Ready, 0)), Act(7, 9, a.kind, a.size))
  }

  /** Then the robot is asked. */
  function HandFive(s: System, a: Action): System { Step(TABLE, PlayerActed(s, a), Ask(7, true)) }

  function Question(a: Action): Request { Request(7, 5, 0, 1, [a], UNDEALT) }

  /** The record after the question was asked. */
  function AskedRobot(a: Action): Robot { Robot(7, NO_LIMIT_2P, 9, Waiting, 5, 1, [a], UNDEALT, 1, a.size) }

  lemma PlayToRobot(s: System, a: Action)
    requires Opening(a) && (7 in s.robots ==> s.robots[7].id == 7)
    ensures var t := PlayerActed(s, a);
      7 in t.robots && t.robots[7] == AskedRobot(a).(run := Ready) && t.flight == s.flight
  {
    var r := if 7 in s.robots then s.robots[7] else NewRobot(7, Ready, 0);
    assert Begin(TABLE, r, 5, 7, 9, true) == Robot(7, NO_LIMIT_2P, 9, Ready, 5, 1, [], UNDEALT, 0, r.lastBet);
  }

  lemma PlayHandFive(s: System, a: Action)
    requires Opening(a) && (7 in s.robots ==> s.robots[7].id == 7)
    ensures var t := HandFive(s, a);
      7 in t.robots && t.robots[7] == AskedRobot(a) && t.flight == s.flight + multiset{Question(a)}
  {
    PlayToRobot(s, a);
    assert QueryAction(TABLE, AskedRobot(a).(run := Ready), true) == (AskedRobot(a), Some(Question(a)));
  }

  /** The answer to a question that is in flight is applied to betting it was not computed for. */
  ghost predicate AnsweredWrongly(s: System, q: Request, decoded: Action) {
    Applied(TABLE, s, q, Some(decoded)) && q.history != s.robots[q.robot].history
  }

  /** The first hand's question is answered in the second. */
  lemma OldQuestion(s: System, a: Action, b: Action)
    requires a != b && Opening(b) && Question(a) in s.flight && 7 in s.robots && s.robots[7] == AskedRobot(b)
    ensures AnsweredWrongly(s, Question(a), Action(Call, 0))
  {
    assert Question(a).history[0] != AskedRobot(b).history[0];
  }

  /** Reusing a hand id while a request is in flight: the player calls in the first hand and raises to
      4 in the second, and the answer computed against the call is played against the raise. */
  lemma ReusedHand()
    ensures AnsweredWrongly(HandFive(HandFive(INITIAL, Action(Call, 0)), Action(Raise, 4)), Question(Action(Call, 0)),
      Action(Call, 0))
  {
    var a, b := Action(Call, 0), Action(Raise, 4);
    PlayHandFive(INITIAL, a);
    PlayHandFive(HandFive(INITIAL, a), b);
    OldQuestion(HandFive(HandFive(INITIAL, a), b), a, b);
  }

  // ----- cards dealt twice -----

  /** A hand in which the robot acts first, is dealt two cards and asked, and is then dealt two others. */
  const DEALT_TWICE: seq<Event> :=
    [BeginHand(7, 5, 9, 9, true, true, Ready, 0), DealCards(7, 0, [1, 2], []), Ask(7, true),
      DealCards(7, 0, [3, 4], [])]

  function FirstToAct(run: RunState, cards: map<nat, nat>): Robot {
    Robot(7, NO_LIMIT_2P, 9, run, 5, 0, [], cards, 0, 0)
  }

  const ASKED := Request(7, 5, 0, 0, [], UNDEALT[0 := 1][1 := 2])

  /** Robot 7 acts first, and these requests are in flight. */
  ghost predicate FirstIs(s: System, run: RunState, cards: map<nat, nat>, flight: multiset<Request>) {
    7 in s.robots && s.robots[7] == FirstToAct(run, cards) && s.flight == flight
  }

  lemma HandBegins()
    ensures FirstIs(Step(TABLE, INITIAL, BeginHand(7, 5, 9, 9, true, true, Ready, 0)), Ready, UNDEALT, multiset{})
  {
    assert Begin(TABLE, NewRobot(7, Ready, 0), 5, 9, 9, true) == FirstToAct(Ready, UNDEALT);
  }

  lemma Dealt(s: System, run: RunState, cards: map<nat, nat>, flight: multiset<Request>, a: nat, b: nat)
    requires FirstIs(s, run, cards, flight) && a < 52 && b < 52
    ensures FirstIs(Step(TABLE, s, DealCards(7, 0, [a, b], [])), run, cards[0 := a][1 := b], flight)
  {
    assert [a, b][1..] == [b] && [b][1..] == [];
    assert Store(TABLE, cards[0 := a][1 := b], 2, []) == (cards[0 := a][1 := b], true);
    assert Store(TABLE, cards[0 := a], 1, [b]) == (cards[0 := a][1 := b], true);
    assert SendCards(TABLE, FirstToAct(run, cards), 0, [a, b], []) == FirstToAct(run, cards[0 := a][1 := b]);
  }

  lemma AskedFirst(s: System)
    requires FirstIs(s, Ready, ASKED.cards, multiset{})
    ensures FirstIs(Step(TABLE, s, Ask(7, true)), Waiting, ASKED.cards, multiset{ASKED})
  {
    assert QueryAction(TABLE, FirstToAct(Ready, ASKED.cards), true) == (FirstToAct(Waiting, ASKED.cards), Some(ASKED));
  }

  lemma OneMore(w: World, s: System, es: seq<Event>, n: nat)
    requires n < |es|
    ensures Run(w, s, es[..n + 1]) == Step(w, Run(w, s, es[..n]), es[n])
  {
    assert es[..n + 1][..n] == es[..n];
  }

  /** The state after the first n events. */
  function Played(n: nat): System
    requires n <= |DEALT_TWICE|
  {
    Run(TABLE, INITIAL, DEALT_TWICE[..n])
  }

  lemma AfterOne()
    ensures FirstIs(Played(1), Ready, UNDEALT, multiset{})
  {
    HandBegins();
    OneMore(TABLE, INITIAL, DEALT_TWICE, 0);
  }

  lemma AfterTwo()
    ensures FirstIs(Played(2), Ready, ASKED.cards, multiset{})
  {
    AfterOne();
    Dealt(Played(1), Ready, UNDEALT, multiset{}, 1, 2);
    OneMore(TABLE, INITIAL, DEALT_TWICE, 1);
  }

  lemma AfterThree()
    ensures FirstIs(Played(3), Waiting, ASKED.cards, multiset{ASKED})
  {
    AfterTwo();
    AskedFirst(Played(2));
    OneMore(TABLE, INITIAL, DEALT_TWICE, 2);
  }

  lemma AfterFour()
    ensures FirstIs(Played(4), Waiting, UNDEALT[0 := 3][1 := 4], multiset{ASKED})
  {
    AfterThree();
    Dealt(Played(3), Waiting, ASKED.cards, multiset{ASKED}, 3, 4);
    assert ASKED.cards[0 := 3][1 := 4] == UNDEALT[0 := 3][1 := 4];
    OneMore(TABLE, INITIAL, DEALT_TWICE, 3);
  }

  lemma CalledWithOthers(s: System)
    requires FirstIs(s, Waiting, UNDEALT[0 := 3][1 := 4], multiset{ASKED})
    ensures Applied(TABLE, s, ASKED, Some(Action(Call, 0))) && ASKED.cards != s.robots[7].cards
  {
    assert ASKED.cards[0] != s.robots[7].cards[0];
    ApplyExactly(TABLE, s.robots[7], 7, Call, 0);
  }

  /** Its hand ids are fresh, and yet the answer computed from the first cards is played with the
      second: the robot calls holding cards that the strategy never saw. */
  lemma DealtTwice()
    ensures FreshRun(TABLE, INITIAL, DEALT_TWICE)
    ensures Applied(TABLE, Run(TABLE, INITIAL, DEALT_TWICE), ASKED, Some(Action(Call, 0)))
    ensures ASKED.cards != Run(TABLE, INITIAL, DEALT_TWICE).robots[7].cards
  {
    forall i | 0 <= i < 4 ensures FreshEvent(TABLE, Run(TABLE, INITIAL, DEALT_TWICE[..i]), DEALT_TWICE[i]) {
      if i == 0 { assert Run(TABLE, INITIAL, DEALT_TWICE[..0]) == INITIAL; }
    }
    AfterFour();
    assert DEALT_TWICE[..4] == DEALT_TWICE;
    CalledWithOthers(Run(TABLE, INITIAL, DEALT_TWICE));
  }
}
