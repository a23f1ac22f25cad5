/** The whole server as a transition system: every robot's record, the CFR requests in flight, and
    tallies of accepted requests and of replies.  Each handler runs under the robot's lock, so each
    is one step. */
module RobotProtocol {
  import opened Wrappers
  import opened RunGames

  /** accepted, replied and dropped list the robot of every accepted action request, of every reply
      sent for one later, and of every one given up without a reply. */
  datatype System = System(
    robots: map<int, Robot>,
    flight: multiset<Request>,
    accepted: multiset<int>,
    replied: multiset<int>,
    dropped: multiset<int>)

  const INITIAL := System(map[], multiset{}, multiset{}, multiset{}, multiset{})

  /** The messages and timers, with everything the handler is told from outside. */
  datatype Event =
    | BeginHand(id: int, hand: nat, banker: int, player: int, modelSet: bool, added: bool, run: RunState,
      actionSeq: nat)
    | DealCards(id: int, dealtRound: nat, hole: seq<int>, board: seq<int>)
    | Act(id: int, uid: int, kind: Kind, num: int)
    | Ask(id: int, sendable: bool)
    | Respond(request: Request, decoded: Option<Action>)
    | Lose(request: Request)
    | Tick(id: int, expired: bool, late: bool)

  function Waits(robots: map<int, Robot>, id: int): nat {
    if id in robots && robots[id].run == Waiting then 1 else 0
  }

  function Times(id: int, n: nat): multiset<int> { multiset{}[id := n] }

  /** Store a robot's new record.  A wait that ended without a reply was dropped. */
  function Update(s: System, id: int, r: Robot, replied: bool): System {
    var robots := s.robots[id := r];
    s.(robots := robots,
       replied := s.replied + Times(id, if replied then 1 else 0),
       dropped := s.dropped + Times(id,
         if !replied && Waits(s.robots, id) == 1 && Waits(robots, id) == 0 then 1 else 0))
  }

  function Remove(s: System, id: int): System {
    s.(robots := s.robots - {id}, dropped := s.dropped + Times(id, Waits(s.robots, id)))
  }

  function BeginStep(w: World, s: System, e: Event): System
    requires e.BeginHand?
  {
    if e.id == 0 || (e.id !in s.robots && !e.added) then s
    else
      var r := if e.id in s.robots then s.robots[e.id] else NewRobot(e.id, e.run, e.actionSeq);
      Update(s, e.id, Begin(w, r, e.hand, e.banker, e.player, e.modelSet), false)
  }

  function DealStep(w: World, s: System, e: Event): System
    requires e.DealCards?
  {
    if e.id == 0 || e.id !in s.robots then s
    else Update(s, e.id, SendCards(w, s.robots[e.id], e.dealtRound, e.hole, e.board), false)
  }

  function ActStep(w: World, s: System, e: Event): System
    requires e.Act?
  {
    if e.id == 0 || e.id !in s.robots then s
    else Update(s, e.id, PlayerAction(w, s.robots[e.id], e.uid, e.kind, e.num), false)
  }

  function AskStep(w: World, s: System, e: Event): System
    requires e.Ask?
  {
    if e.id == 0 || e.id !in s.robots then s
    else
      var (r, sent) := QueryAction(w, s.robots[e.id], e.sendable);
      if sent.None? then s
      else Update(s, e.id, r, false).(flight := s.flight + multiset{sent.value},
        accepted := s.accepted + Times(e.id, 1))
  }

  function RespondStep(w: World, s: System, e: Event): System
    requires e.Respond?
  {
    var q := e.request;
    if q !in s.flight then s
    else
      var rest := s.(flight := s.flight - multiset{q});
      if q.robot !in s.robots then rest
      else
        var (r, sent) := Answer(w, s.robots[q.robot], q, e.decoded);
        Update(rest, q.robot, r, sent.Some?)
  }

  function TickStep(s: System, e: Event): System
    requires e.Tick?
  {
    if e.id !in s.robots then s
    else if e.expired then Remove(s, e.id)
    else
      var (r, sent) := Timeout(s.robots[e.id], e.late);
      Update(s, e.id, r, sent.Some?)
  }

  function Step(w: World, s: System, e: Event): System {
    match e
    case BeginHand(_, _, _, _, _, _, _, _) => BeginStep(w, s, e)
    case DealCards(_, _, _, _) => DealStep(w, s, e)
    case Act(_, _, _, _) => ActStep(w, s, e)
    case Ask(_, _) => AskStep(w, s, e)
    case Respond(_, _) => RespondStep(w, s, e)
    case Lose(q) => s.(flight := s.flight - multiset{q})
    case Tick(_, _, _) => TickStep(s, e)
  }

  function Run(w: World, s: System, es: seq<Event>): System
    decreases |es|
  {
    if es == [] then s else Step(w, Run(w, s, es[..|es| - 1]), es[|es| - 1])
  }

  // ----- the invariant -----

  /** q belongs to the hand that the record is playing. */
  predicate Current(r: Robot, q: Request) { q.robot == r.id && q.hand == r.hand }

  /** q asks about exactly the decision the record is at, and that decision is the robot's. */
  predicate Matches(w: World, r: Robot, q: Request) {
    && q.round == w.round(r.history) && q.actionSeq == r.actionSeq && q.history == r.history
    && (CurrentPlayer(w, r) == r.id || r.game !in w.games)
  }

  ghost predicate RobotInv(w: World, id: int, r: Robot, flight: multiset<Request>) {
    && r.id == id && id != 0
    && (forall q :: q in flight && Current(r, q) ==> r.run != Ready && flight[q] == 1)
    && (forall q, q' :: q in flight && q' in flight && Current(r, q) && Current(r, q') ==> q == q')
    && (r.run == Waiting ==> forall q :: q in flight && Current(r, q) ==> Matches(w, r, q))
  }

  /** For every robot: at most one request in flight carries its current hand, none while it is
      ready, and while it waits that request is about the decision it is at. */
  ghost predicate Inv(w: World, s: System) {
    forall id :: id in s.robots ==> RobotInv(w, id, s.robots[id], s.flight)
  }

  /** No request of this robot in flight carries the hand. */
  ghost predicate Fresh(s: System, id: int, hand: nat) {
    forall q :: q in s.flight && q.robot == id ==> q.hand != hand
  }

  /** The hand id that a begin message puts into use is fresh: its own when the hand starts, 0 when
      only a record is added, and none when nothing comes of it. */
  ghost predicate FreshEvent(w: World, s: System, e: Event) {
    e.BeginHand? && e.id != 0 ==>
      if e.id !in s.robots && !e.added then true
      else if e.modelSet && NO_LIMIT_2P in w.games then Fresh(s, e.id, e.hand)
      else e.id !in s.robots ==> Fresh(s, e.id, 0)
  }

  lemma FewerRequests(w: World, id: int, r: Robot, flight: multiset<Request>, rest: multiset<Request>)
    requires RobotInv(w, id, r, flight) && rest <= flight
    ensures RobotInv(w, id, r, rest)
  {
    forall q | q in rest ensures q in flight && rest[q] <= flight[q] {}
  }

  /** A step that replaces one record and leaves the others alone. */
  lemma UpdateKeeps(w: World, s: System, flight: multiset<Request>, id: int, r: Robot, replied: bool)
    requires Inv(w, s) && flight <= s.flight && RobotInv(w, id, r, flight)
    ensures Inv(w, Update(s, id, r, replied).(flight := flight))
  {
    forall other | other in s.robots && other != id ensures RobotInv(w, other, s.robots[other], flight) {
      FewerRequests(w, other, s.robots[other], s.flight, flight);
    }
  }

  lemma BeginKeeps(w: World, s: System, e: Event)
    requires Inv(w, s) && e.BeginHand? && FreshEvent(w, s, e)
    ensures Inv(w, Step(w, s, e))
  {
  }

  /** Cards change neither the betting nor, unless they are wrong, the run state. */
  lemma CardsKeep(w: World, s: System, e: Event)
    requires Inv(w, s) && e.DealCards?
    ensures Inv(w, Step(w, s, e))
  {
  }

  /** While a question about the current decision is open no player action is applied. */
  lemma ActKeeps(w: World, s: System, e: Event)
    requires Inv(w, s) && e.Act?
    ensures Inv(w, Step(w, s, e))
  {
  }

  /** A question is asked only when none about the current hand is in flight. */
  lemma AskKeeps(w: World, s: System, e: Event)
    requires Inv(w, s) && e.Ask?
    ensures Inv(w, Step(w, s, e))
  {
  }

  /** A response takes its request with it. */
  lemma AnswerRobot(w: World, id: int, r: Robot, flight: multiset<Request>, q: Request, decoded: Option<Action>)
    requires RobotInv(w, id, r, flight) && q in flight && q.robot == id
    ensures RobotInv(w, id, Answer(w, r, q, decoded).0, flight - multiset{q})
  {
    var rest := flight - multiset{q};
    FewerRequests(w, id, r, flight, rest);
    if Current(r, q) {
      forall p | p in rest ensures !Current(r, p) {
        assert p in flight;
        if p == q { assert flight[q] == 1; }
      }
    }
  }

  lemma RespondKeeps(w: World, s: System, e: Event)
    requires Inv(w, s) && e.Respond?
    ensures Inv(w, Step(w, s, e))
  {
    var q, rest := e.request, s.flight - multiset{e.request};
    if q in s.flight {
      forall id | id in s.robots
        ensures RobotInv(w, id, s.robots[id], rest)
      {
        FewerRequests(w, id, s.robots[id], s.flight, rest);
      }
      if q.robot in s.robots {
        AnswerRobot(w, q.robot, s.robots[q.robot], s.flight, q, e.decoded);
        UpdateKeeps(w, s.(flight := rest), rest, q.robot, Answer(w, s.robots[q.robot], q, e.decoded).0,
                    Answer(w, s.robots[q.robot], q, e.decoded).1.Some?);
      }
    }
  }

  lemma TickKeeps(w: World, s: System, e: Event)
    requires Inv(w, s) && (e.Tick? || e.Lose?)
    ensures Inv(w, Step(w, s, e))
  {
    if e.Lose? {
      var rest := s.flight - multiset{e.request};
      forall id | id in s.robots
        ensures RobotInv(w, id, s.robots[id], rest)
      {
        FewerRequests(w, id, s.robots[id], s.flight, rest);
      }
    }
  }

  lemma StepKeeps(w: World, s: System, e: Event)
    requires Inv(w, s) && FreshEvent(w, s, e)
    ensures Inv(w, Step(w, s, e))
  {
    match e
    case BeginHand(_, _, _, _, _, _, _, _) => BeginKeeps(w, s, e);
    case DealCards(_, _, _, _) => CardsKeep(w, s, e);
    case Act(_, _, _, _) => ActKeeps(w, s, e);
    case Ask(_, _) => AskKeeps(w, s, e);
    case Respond(_, _) => RespondKeeps(w, s, e);
    case Lose(_) => TickKeeps(w, s, e);
    case Tick(_, _, _) => TickKeeps(w, s, e);
  }

  /** Every begin message of the run uses hand ids that are fresh at that point. */
  ghost predicate FreshRun(w: World, s: System, es: seq<Event>) {
    forall i :: 0 <= i < |es| ==> FreshEvent(w, Run(w, s, es[..i]), es[i])
  }

  /** The invariant holds in every state that a run with fresh hand ids reaches. */
  lemma {:induction false} Reachable(w: World, es: seq<Event>)
    requires FreshRun(w, INITIAL, es)
    ensures Inv(w, Run(w, INITIAL, es))
    decreases |es|
  {
    if es != [] {
      var last := |es| - 1;
      forall i | 0 <= i < last ensures FreshEvent(w, Run(w, INITIAL, es[..last][..i]), es[..last][i]) {
        assert es[..last][..i] == es[..i];
      }
      Reachable(w, es[..last]);
      StepKeeps(w, Run(w, INITIAL, es[..last]), es[last]);
    }
  }

  // ----- freshness is exactly what is needed -----

  /** A begin message that starts a hand keeps the invariant iff no request of the robot in flight
      carries that hand id. */
  lemma BeginExactly(w: World, s: System, e: Event)
    requires Inv(w, s) && e.BeginHand? && e.modelSet && e.id != 0 && (e.id in s.robots || e.added)
      && NO_LIMIT_2P in w.games
    ensures Inv(w, Step(w, s, e)) <==> Fresh(s, e.id, e.hand)
  {
    if !Fresh(s, e.id, e.hand) {
      var q :| q in s.flight && q.robot == e.id && q.hand == e.hand;
      var next := Step(w, s, e);
      assert next.robots[e.id].run == Ready && Current(next.robots[e.id], q);
    }
  }

  // ----- what the invariant buys -----

  /** The answer to q, a request in flight, would be applied. */
  predicate Applied(w: World, s: System, q: Request, decoded: Option<Action>) {
    && q in s.flight && q.robot in s.robots
    && Answer(w, s.robots[q.robot], q, decoded).0.history != s.robots[q.robot].history
  }

  /** A robot action is only ever applied to the betting it was computed for, at the robot's turn,
      and the request it answers was about the current hand, round and action. */
  lemma AppliedWhereComputed(w: World, s: System, q: Request, decoded: Option<Action>)
    requires Inv(w, s) && Applied(w, s, q, decoded)
    ensures var r := s.robots[q.robot];
      && r.run == Waiting && q.hand == r.hand && q.history == r.history && q.round == w.round(r.history)
      && CurrentPlayer(w, r) == r.id
      && Answer(w, r, q, decoded).1 == Some(Response(decoded.value.kind, Answer(w, r, q, decoded).0.lastBet))
  {
  }

  /** The robot that asked q is waiting for the answer. */
  predicate Awaited(s: System, q: Request) {
    q in s.flight && q.robot in s.robots && Current(s.robots[q.robot], q) && s.robots[q.robot].run == Waiting
  }

  /** While a robot waits, the answer to its question always ends the wait with one reply: the round
      and sequence guards never reject it. */
  lemma AnswerEndsWait(w: World, s: System, q: Request, decoded: Option<Action>)
    requires Inv(w, s) && Awaited(s, q)
    ensures Answer(w, s.robots[q.robot], q, decoded).1.Some? && Answer(w, s.robots[q.robot], q, decoded).0.run == Ready
  {
  }

  /** Which answers are applied: exactly those to awaited questions that stand for a legal action.  Any
      other answer to an awaited question is a fold that leaves the betting alone. */
  lemma AppliedExactly(w: World, s: System, q: Request, decoded: Option<Action>)
    requires Inv(w, s)
    ensures Applied(w, s, q, decoded) <==>
      Awaited(s, q) && decoded.Some? && Legal(w, s.robots[q.robot], decoded.value.kind, decoded.value.size)
    ensures Awaited(s, q) && !Applied(w, s, q, decoded) ==>
      Answer(w, s.robots[q.robot], q, decoded).1 == Some(Response(Fold, 0))
  {
    if q.robot in s.robots {
      assert RobotInv(w, q.robot, s.robots[q.robot], s.flight);
      AnswerExactly(w, s.robots[q.robot], q, decoded);
    }
  }

  /** What the platform is told is what was applied: the history grows by the decoded action, and a
      raise is reported as the amount above what the robot had already put in. */
  lemma ToldWhatWasApplied(w: World, r: Robot, q: Request, decoded: Option<Action>)
    requires Answer(w, r, q, decoded).0.history != r.history
    ensures decoded.Some? && decoded.value.kind != Unknown
    ensures var size := if decoded.value.kind == Raise then decoded.value.size else 0;
      var told := Answer(w, r, q, decoded).1.value;
      && Answer(w, r, q, decoded).0.history == r.history + [Action(decoded.value.kind, size)]
      && told.kind == decoded.value.kind
      && (told.kind == Raise ==> told.betNum + w.spent(r.history, r.viewing) == size)
  {
  }

  // ----- accepted requests and replies -----

  ghost predicate ConservedAt(s: System, id: int) {
    s.accepted[id] == s.replied[id] + s.dropped[id] + Waits(s.robots, id)
  }

  /** Every accepted request has been replied to, or dropped, or is being waited for. */
  ghost predicate Conserved(s: System) { forall id: int :: ConservedAt(s, id) }

  /** A record was added, the hand did not start, and the memory it was built in said Waiting. */
  predicate GarbageWait(w: World, s: System, e: Event) {
    && e.BeginHand? && e.id != 0 && e.id !in s.robots && e.added && e.run == Waiting
    && (!e.modelSet || NO_LIMIT_2P !in w.games)
  }

  /** Storing a record keeps the books iff a wait neither starts nor is answered twice. */
  lemma UpdateConserves(s: System, id: int, r: Robot, replied: bool)
    requires Conserved(s)
    requires if replied then Waits(s.robots, id) == 1 && r.run != Waiting else r.run == Waiting ==>
      Waits(s.robots, id) == 1
    ensures Conserved(Update(s, id, r, replied))
  {
    var t := Update(s, id, r, replied);
    forall x ensures ConservedAt(t, x) { assert ConservedAt(s, x); }
  }

  lemma RemoveConserves(s: System, id: int)
    requires Conserved(s)
    ensures Conserved(Remove(s, id))
  {
    var t := Remove(s, id);
    forall x ensures ConservedAt(t, x) { assert ConservedAt(s, x); }
  }

  lemma BeginConserves(w: World, s: System, e: Event)
    requires Conserved(s) && e.BeginHand?
    ensures Conserved(Step(w, s, e)) <==> !GarbageWait(w, s, e)
  {
    if e.id != 0 && (e.id in s.robots || e.added) {
      var r := if e.id in s.robots then s.robots[e.id] else NewRobot(e.id, e.run, e.actionSeq);
      var begun := Begin(w, r, e.hand, e.banker, e.player, e.modelSet);
      assert ConservedAt(s, e.id);
      if GarbageWait(w, s, e) {
        assert !ConservedAt(Step(w, s, e), e.id);
      } else {
        UpdateConserves(s, e.id, begun, false);
      }
    }
  }

  lemma AskConserves(w: World, s: System, e: Event)
    requires Conserved(s) && e.Ask?
    ensures Conserved(Step(w, s, e))
  {
    var t := Step(w, s, e);
    forall x ensures ConservedAt(t, x) { assert ConservedAt(s, x); }
  }

  lemma RespondConserves(w: World, s: System, e: Event)
    requires Conserved(s) && e.Respond?
    ensures Conserved(Step(w, s, e))
  {
    var q := e.request;
    if q in s.flight && q.robot in s.robots {
      var rest := s.(flight := s.flight - multiset{q});
      forall x ensures ConservedAt(rest, x) { assert ConservedAt(s, x); }
      var answer := Answer(w, s.robots[q.robot], q, e.decoded);
      UpdateConserves(rest, q.robot, answer.0, answer.1.Some?);
    } else {
      forall x ensures ConservedAt(Step(w, s, e), x) { assert ConservedAt(s, x); }
    }
  }

  lemma OthersConserve(w: World, s: System, e: Event)
    requires Conserved(s) && (e.DealCards? || e.Act? || e.Tick? || e.Lose?)
    ensures Conserved(Step(w, s, e))
  {
    if e.Lose? {
      forall x ensures ConservedAt(Step(w, s, e), x) { assert ConservedAt(s, x); }
    } else if e.id in s.robots {
      var r := s.robots[e.id];
      if e.Tick? {
        if e.expired {
          RemoveConserves(s, e.id);
        } else {
          UpdateConserves(s, e.id, Timeout(r, e.late).0, Timeout(r, e.late).1.Some?);
        }
      } else if e.DealCards? {
        UpdateConserves(s, e.id, SendCards(w, r, e.dealtRound, e.hole, e.board), false);
      } else {
        UpdateConserves(s, e.id, PlayerAction(w, r, e.uid, e.kind, e.num), false);
      }
    }
  }

  /** A step keeps the books iff it does not leave a wait behind that nobody asked for. */
  lemma StepConserves(w: World, s: System, e: Event)
    requires Conserved(s)
    ensures Conserved(Step(w, s, e)) <==> !GarbageWait(w, s, e)
  {
    if e.BeginHand? {
      BeginConserves(w, s, e);
    } else if e.Ask? {
      AskConserves(w, s, e);
    } else if e.Respond? {
      RespondConserves(w, s, e);
    } else {
      OthersConserve(w, s, e);
    }
  }

  /** Over any run, whatever the hand ids: later replies never outnumber accepted requests, and the
      difference is what was dropped or is being waited for. */
  lemma {:induction false} RepliesConserved(w: World, es: seq<Event>)
    requires forall i :: 0 <= i < |es| ==> !GarbageWait(w, Run(w, INITIAL, es[..i]), es[i])
    ensures Conserved(Run(w, INITIAL, es)) && Run(w, INITIAL, es).replied <= Run(w, INITIAL, es).accepted
    decreases |es|
  {
    if es != [] {
      var last := |es| - 1;
      forall i | 0 <= i < last ensures !GarbageWait(w, Run(w, INITIAL, es[..last][..i]), es[..last][i]) {
        assert es[..last][..i] == es[..i];
      }
      RepliesConserved(w, es[..last]);
      StepConserves(w, Run(w, INITIAL, es[..last]), es[last]);
    }
    var s := Run(w, INITIAL, es);
    forall id ensures s.replied[id] <= s.accepted[id] { assert ConservedAt(s, id); }
  }
}
