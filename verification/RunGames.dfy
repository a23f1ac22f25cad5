/** One robot's hand: the run state, the betting so far, the action sequence number, and what every
    handler does to them. */
module RunGames {
  import opened Wrappers

  datatype Kind = Fold | Call | Raise | Unknown

  datatype Action = Action(kind: Kind, size: int)

  type History = seq<Action>

  /** The engine of one game type. */
  datatype Engine = Engine(
    players: nat,
    turn: History -> nat,
    allows: (History, int) -> bool)

  /** What a hand looks like apart from the game type.  The poker engine is a parameter: a betting
      state is the list of actions applied since the hand began, and the engine answers arbitrary
      questions about it.  Whether a message parses, a server is connected or a response can be
      converted is a parameter of the handlers too. */
  datatype World = World(
    games: map<nat, Engine>,
    finished: History -> bool,
    round: History -> nat,
    spent: (History, nat) -> int,
    local: int -> Option<nat>)

  const NO_LIMIT_2P: nat := 2

  /** Other stands for what an uninitialised field may hold. */
  datatype RunState = Ready | Waiting | BadCards | BadPlayerAction | BadRobotAction | Other(value: int)

  /** Two hole cards and five of the board.  The state is zeroed, so a slot holds card 0 until dealt. */
  const UNDEALT: map<nat, nat> := map[0 := 0, 1 := 0, 2 := 0, 3 := 0, 4 := 0, 5 := 0, 6 := 0]

  datatype Robot = Robot(
    id: int,
    game: nat,
    player: int,
    run: RunState,
    hand: nat,
    viewing: nat,
    history: History,
    cards: map<nat, nat>,
    actionSeq: nat,
    lastBet: int)

  /** What the CFR server is asked: which decision, and the betting and cards it is computed from. */
  datatype Request = Request(robot: int, hand: nat, round: nat, actionSeq: nat, history: History, cards: map<nat, nat>)

  /** What the platform is told to play. */
  datatype Response = Response(kind: Kind, betNum: int)

  const FOLD := Response(Fold, 0)

  // ----- whose turn -----

  function CurrentPlayer(w: World, r: Robot): int {
    if w.finished(r.history) then 0
    else if r.game !in w.games then 0
    else
      var player := w.games[r.game].turn(r.history);
      if player >= w.games[r.game].players then 0
      else if player == r.viewing then r.id
      else r.player
  }

  // ----- begin -----

  /** A record that was just added: only its id is set; the constructor leaves the run state and the
      action sequence number as they were in memory. */
  function NewRobot(id: int, run: RunState, actionSeq: nat): Robot {
    Robot(id, 0, 0, run, 0, 0, [], UNDEALT, actionSeq, 0)
  }

  function RunMatch(w: World, r: Robot, hand: nat, banker: int): (Robot, int) {
    var typed := r.(game := NO_LIMIT_2P);
    if NO_LIMIT_2P !in w.games then (typed, -1)
    else
      var viewing := if banker == r.id then 1 else 0;
      (typed.(viewing := viewing, actionSeq := 0, run := Ready, hand := hand, history := [], cards := UNDEALT), 0)
  }

  function Begin(w: World, r: Robot, hand: nat, banker: int, player: int, modelSet: bool): Robot {
    if !modelSet then r
    else
      var (begun, code) := RunMatch(w, r, hand, banker);
      if code != 0 then begun else begun.(player := player)
  }

  // ----- cards -----

  /** Store converted cards from a slot on, up to the first that cannot be converted. */
  function Store(w: World, cards: map<nat, nat>, slot: nat, given: seq<int>): (map<nat, nat>, bool)
    decreases given
  {
    if given == [] then (cards, true)
    else if w.local(given[0]).None? then (cards, false)
    else Store(w, cards[slot := w.local(given[0]).value], slot + 1, given[1..])
  }

  /** The slots written in a round, and how many: two hole cards, then the board. */
  function SaveCards(w: World, r: Robot, round: nat, hole: seq<int>, board: seq<int>): (Robot, int) {
    if round != w.round(r.history) then (r, -101)
    else if round == 0 && |hole| == 2 then
      var (cards, ok) := Store(w, r.cards, 0, hole);
      (r.(cards := cards), if !ok then -102 else if r.game in w.games then 0 else -1)
    else if round == 1 && |board| == 3 then
      var (cards, ok) := Store(w, r.cards, 2, board);
      (r.(cards := cards), if !ok then -103 else if r.game in w.games then 0 else -1)
    else if round == 2 && |board| == 1 then
      var (cards, ok) := Store(w, r.cards, 5, board);
      (r.(cards := cards), if !ok then -104 else if r.game in w.games then 0 else -1)
    else if round == 3 && |board| == 1 then
      var (cards, ok) := Store(w, r.cards, 6, board);
      (r.(cards := cards), if !ok then -105 else if r.game in w.games then 0 else -1)
    else (r, -110)
  }

  /** Where a message of a round puts its cards: the first slot, and the cards it must bring. */
  function Placed(round: nat, hole: seq<int>, board: seq<int>): Option<(nat, seq<int>)> {
    if round == 0 && |hole| == 2 then Some((0, hole))
    else if round == 1 && |board| == 3 then Some((2, board))
    else if (round == 2 || round == 3) && |board| == 1 then Some((round + 3, board))
    else None
  }

  /** The message fits the round being played, brings as many cards as the round deals, and every
      one of them exists. */
  predicate Readable(w: World, r: Robot, round: nat, hole: seq<int>, board: seq<int>) {
    && round == w.round(r.history) && Placed(round, hole, board).Some?
    && (forall i :: 0 <= i < |Placed(round, hole, board).value.1| ==>
      w.local(Placed(round, hole, board).value.1[i]).Some?)
  }

  /** And the game is known. */
  predicate WellDealt(w: World, r: Robot, round: nat, hole: seq<int>, board: seq<int>) {
    Readable(w, r, round, hole, board) && r.game in w.games
  }

  predicate HoldsAt(w: World, cards: map<nat, nat>, slot: nat, given: int) {
    slot in cards && w.local(given) == Some(cards[slot])
  }

  /** The slots from slot on hold exactly the given cards. */
  predicate Holds(w: World, cards: map<nat, nat>, slot: nat, given: seq<int>) {
    forall i :: 0 <= i < |given| ==> HoldsAt(w, cards, slot + i, given[i])
  }

  /** Every slot outside the given range is as before. */
  ghost predicate SameOutside(was: map<nat, nat>, now: map<nat, nat>, slot: nat, n: nat) {
    forall j: nat :: j < slot || j >= slot + n ==> (j in was <==> j in now) && (j in was ==> was[j] == now[j])
  }

  /** Storing succeeds iff all the cards exist, and then writes exactly their slots. */
  lemma {:induction false} StoreIs(w: World, cards: map<nat, nat>, slot: nat, given: seq<int>)
    ensures var (stored, ok) := Store(w, cards, slot, given);
      && (ok <==> forall i :: 0 <= i < |given| ==> w.local(given[i]).Some?)
      && SameOutside(cards, stored, slot, |given|)
      && (ok ==> Holds(w, stored, slot, given))
    decreases given
  {
    if given != [] && w.local(given[0]).Some? {
      var next := cards[slot := w.local(given[0]).value];
      StoreIs(w, next, slot + 1, given[1..]);
      var (stored, ok) := Store(w, next, slot + 1, given[1..]);
      assert given == [given[0]] + given[1..];
      if ok {
        forall i | 0 <= i < |given| ensures HoldsAt(w, stored, slot + i, given[i]) {
          if i > 0 { assert HoldsAt(w, stored, slot + 1 + (i - 1), given[1..][i - 1]); }
        }
      }
    }
  }

  /** Storing stops at the first card that does not exist, with the ones before it stored. */
  lemma {:induction false} StoreStops(w: World, cards: map<nat, nat>, slot: nat, given: seq<int>) returns (n: nat)
    requires !Store(w, cards, slot, given).1
    ensures n < |given| && w.local(given[n]).None? && forall i :: 0 <= i < n ==> w.local(given[i]).Some?
    ensures Store(w, cards, slot, given).0 == Store(w, cards, slot, given[..n]).0 && Store(w, cards, slot, given[..n]).1
    decreases given
  {
    n := 0;
    if w.local(given[0]).Some? {
      var rest := StoreStops(w, cards[slot := w.local(given[0]).value], slot + 1, given[1..]);
      n := rest + 1;
      assert given[..n] == [given[0]] + given[1..][..rest] && given[..n][1..] == given[1..][..rest];
      assert forall i :: 1 <= i < n ==> given[i] == given[1..][i - 1];
    }
  }

  /** Cards are accepted iff the message is well dealt.  Then their slots hold them and nothing else
      changes, so the cards change iff some slot did not hold its card already. */
  lemma SaveExactly(w: World, r: Robot, round: nat, hole: seq<int>, board: seq<int>)
    ensures SaveCards(w, r, round, hole, board).1 == 0 <==> WellDealt(w, r, round, hole, board)
    ensures SaveCards(w, r, round, hole, board).1 == -1 <==>
      Readable(w, r, round, hole, board) && r.game !in w.games
    ensures WellDealt(w, r, round, hole, board) ==>
      var (slot, given) := Placed(round, hole, board).value;
      var saved := SaveCards(w, r, round, hole, board).0;
      && saved == r.(cards := saved.cards) && Holds(w, saved.cards, slot, given)
        && SameOutside(r.cards, saved.cards, slot, |given|)
      && (saved.cards != r.cards <==> !Holds(w, r.cards, slot, given))
  {
    if Placed(round, hole, board).Some? {
      var (slot, given) := Placed(round, hole, board).value;
      StoreIs(w, r.cards, slot, given);
      if WellDealt(w, r, round, hole, board) && Holds(w, r.cards, slot, given) {
        HeldStays(w, r.cards, SaveCards(w, r, round, hole, board).0.cards, slot, given);
      }
    }
  }

  /** Cards that were there already are not changed by storing them again. */
  lemma HeldStays(w: World, was: map<nat, nat>, now: map<nat, nat>, slot: nat, given: seq<int>)
    requires Holds(w, was, slot, given) && Holds(w, now, slot, given) && SameOutside(was, now, slot, |given|)
    ensures was == now
  {
    forall j: nat ensures (j in was <==> j in now) && (j in was ==> was[j] == now[j]) {
      if slot <= j < slot + |given| {
        assert HoldsAt(w, was, slot + (j - slot), given[j - slot]);
      }
    }
  }

  function SendCards(w: World, r: Robot, round: nat, hole: seq<int>, board: seq<int>): Robot {
    var (saved, code) := SaveCards(w, r, round, hole, board);
    if code != 0 then saved.(run := BadCards) else saved
  }

  // ----- actions -----

  /** A robot raises to an amount, a player by an amount: the amount raised to, and by. */
  function RaiseTo(w: World, r: Robot, uid: int, num: int): int {
    if uid == r.id then num else num + w.spent(r.history, (r.viewing + 1) % 2)
  }

  function RaiseBy(w: World, r: Robot, uid: int, num: int): int {
    if uid == r.id then num - w.spent(r.history, r.viewing) else num
  }

  predicate Allowed(w: World, r: Robot, a: Action)
    requires r.game in w.games
  {
    match a.kind
    case Fold => true
    case Call => true
    case Raise => w.games[r.game].allows(r.history, a.size)
    case Unknown => false
  }

  function ApplyAction(w: World, r: Robot, uid: int, kind: Kind, num: int): (Robot, int) {
    var noted := r.(lastBet := if kind == Raise then RaiseBy(w, r, uid, num) else 0);
    var a := Action(kind, if kind == Raise then RaiseTo(w, r, uid, num) else 0);
    if r.game !in w.games then (noted, -1000)
    else if CurrentPlayer(w, r) != uid then (noted, -1001)
    else if !Allowed(w, r, a) then (noted, -1002)
    else (noted.(history := r.history + [a], actionSeq := (r.actionSeq + 1) % 256), 0)
  }

  /** The game is known, and the action is known and, as a raise, allowed at its size. */
  predicate Legal(w: World, r: Robot, kind: Kind, size: int) {
    r.game in w.games && kind != Unknown && (kind == Raise ==> w.games[r.game].allows(r.history, size))
  }

  /** What an action message means.  The robot raises to num, anybody else by num on top of what the
      other seat has put in; the bet noted is the amount raised by.  The action is applied iff it is
      uid's turn and it is legal at that size; refused, it leaves nothing but the note. */
  ghost predicate Acted(w: World, r: Robot, uid: int, kind: Kind, num: int, after: Robot, code: int) {
    var put := w.spent(r.history, if uid == r.id then r.viewing else (r.viewing + 1) % 2);
    var size := if kind != Raise then 0 else if uid == r.id then num else num + put;
    var noted := r.(lastBet := if kind != Raise then 0 else if uid == r.id then num - put else num);
    && (code == 0 <==> CurrentPlayer(w, r) == uid && Legal(w, r, kind, size))
    && (code != 0 ==> after == noted)
    && (code == 0 ==>
        after == noted.(history := r.history + [Action(kind, size)], actionSeq := (r.actionSeq + 1) % 256))
  }

  lemma ApplyExactly(w: World, r: Robot, uid: int, kind: Kind, num: int)
    ensures Acted(w, r, uid, kind, num, ApplyAction(w, r, uid, kind, num).0, ApplyAction(w, r, uid, kind, num).1)
  {
  }

  function PlayerAction(w: World, r: Robot, uid: int, kind: Kind, num: int): Robot {
    if uid == r.id then r
    else
      var (acted, code) := ApplyAction(w, r, uid, kind, num);
      if code != 0 then acted.(run := BadPlayerAction) else acted
  }

  // ----- asking the CFR server -----

  function Asked(w: World, r: Robot): Request {
    Request(r.id, r.hand, w.round(r.history), r.actionSeq, r.history, r.cards)
  }

  /** Some request when the question was sent and the robot now waits. */
  function QueryAction(w: World, r: Robot, sendable: bool): (Robot, Option<Request>) {
    if CurrentPlayer(w, r) != r.id || r.run != Ready || !sendable then (r, None)
    else (r.(run := Waiting), Some(Asked(w, r)))
  }

  // ----- answers and timeouts -----

  /** decoded is the action that the response stands for, none when any conversion failed. */
  function Answer(w: World, r: Robot, q: Request, decoded: Option<Action>): (Robot, Option<Response>) {
    if q.hand != r.hand then (r, None)
    else if q.round != w.round(r.history) then (r, None)
    else if r.run != Waiting then (r, None)
    else if decoded.None? then (r.(run := Ready), Some(FOLD))
    else if q.actionSeq != r.actionSeq then (r, None)
    else
      var (acted, code) := ApplyAction(w, r, r.id, decoded.value.kind, decoded.value.size);
      if code != 0 then (acted.(run := Ready), Some(FOLD))
      else (acted.(run := Ready), Some(Response(decoded.value.kind, acted.lastBet)))
  }

  /** The answer is about the decision that the robot waits at, and stands for a legal action. */
  predicate Playable(w: World, r: Robot, q: Request, decoded: Option<Action>) {
    && q.hand == r.hand && q.round == w.round(r.history) && q.actionSeq == r.actionSeq && r.run == Waiting
    && CurrentPlayer(w, r) == r.id && decoded.Some? && Legal(w, r, decoded.value.kind, decoded.value.size)
  }

  /** What an answer means.  The decoded action is played iff it is playable, and the platform is told
      so, a raise as the amount above what the robot had put in.  Any other reply is a fold, and
      without a reply nothing changes. */
  ghost predicate Answered(w: World, r: Robot, q: Request, decoded: Option<Action>, after: Robot,
                           sent: Option<Response>) {
    && (after.history != r.history <==> Playable(w, r, q, decoded))
    && (Playable(w, r, q, decoded) ==>
        var kind, size := decoded.value.kind, if decoded.value.kind == Raise then decoded.value.size else 0;
        && after.history == r.history + [Action(kind, size)] && after.actionSeq == (r.actionSeq + 1) % 256
        && sent == Some(Response(kind, if kind == Raise then size - w.spent(r.history, r.viewing) else 0)))
    && (sent.Some? && !Playable(w, r, q, decoded) ==> sent == Some(Response(Fold, 0)))
    && (sent.Some? <==>
        && q.hand == r.hand && q.round == w.round(r.history) && r.run == Waiting
        && (decoded.None? || q.actionSeq == r.actionSeq))
    && (sent.Some? ==> after.run == Ready)
    && (sent.None? ==> after == r)
  }

  lemma AnswerExactly(w: World, r: Robot, q: Request, decoded: Option<Action>)
    ensures Answered(w, r, q, decoded, Answer(w, r, q, decoded).0, Answer(w, r, q, decoded).1)
  {
    if decoded.Some? { ApplyExactly(w, r, r.id, decoded.value.kind, decoded.value.size); }
  }

  function Timeout(r: Robot, late: bool): (Robot, Option<Response>) {
    if r.run == Waiting && late then (r.(run := BadRobotAction), Some(FOLD)) else (r, None)
  }

  // ----- the object -----

  class RunGame {
    var id: int
    var game: nat
    var player: int
    var run: RunState
    var hand: nat
    var viewing: nat
    var history: History
    var cards: map<nat, nat>
    var actionSeq: nat
    var lastBet: int

    ghost function View(): Robot
      reads this
    {
      Robot(id, game, player, run, hand, viewing, history, cards, actionSeq, lastBet)
    }

    /** The fields that the constructor does not reset are parameters. */
    constructor (id: int, run: RunState, actionSeq: nat)
      ensures View() == NewRobot(id, run, actionSeq)
    {
      this.id, this.run, this.actionSeq := id, run, actionSeq;
      game, player, hand, viewing, lastBet := 0, 0, 0, 0, 0;
      history, cards := [], UNDEALT;
    }

    /** Ids are not 0, so 0 says that it is nobody's turn. */
    method GetCurrentPlayerID(w: World) returns (uid: int)
      ensures uid == CurrentPlayer(w, View())
      ensures uid != 0 ==>
        !w.finished(history) && game in w.games && w.games[game].turn(history) < w.games[game].players
        && (uid == id || uid == player)
      ensures !w.finished(history) && game in w.games && w.games[game].turn(history) < w.games[game].players ==>
        uid == if w.games[game].turn(history) == viewing then id else player
    {
      if w.finished(history) { return 0; }
      if game !in w.games { return 0; }
      var current := w.games[game].turn(history);
      if current >= w.games[game].players { return 0; }
      if current == viewing { return id; } else { return player; }
    }

    method DoRunMatch(w: World, handId: nat, banker: int) returns (code: int)
      modifies this
      ensures (View(), code) == RunMatch(w, old(View()), handId, banker)
      ensures code == 0 <==> NO_LIMIT_2P in w.games
      ensures code == 0 ==>
        run == Ready && hand == handId && history == [] && cards == UNDEALT && actionSeq == 0 && game == NO_LIMIT_2P
      ensures code == 0 ==> viewing == if banker == id then 1 else 0
      ensures code != 0 ==> View() == old(View()).(game := NO_LIMIT_2P)
    {
      game := NO_LIMIT_2P;
      if NO_LIMIT_2P !in w.games { return -1; }
      history, cards := [], UNDEALT;
      viewing := if banker == id then 1 else 0;
      actionSeq := 0;
      run := Ready;
      hand := handId;
      return 0;
    }

    method StoreCards(w: World, slot: nat, given: seq<int>) returns (ok: bool)
      modifies this`cards
      ensures (cards, ok) == Store(w, old(cards), slot, given)
      ensures ok <==> forall i :: 0 <= i < |given| ==> w.local(given[i]).Some?
      ensures ok ==> Holds(w, cards, slot, given)
      ensures SameOutside(old(cards), cards, slot, |given|)
    {
      StoreIs(w, cards, slot, given);
      var i := 0;
      while i < |given|
        invariant 0 <= i <= |given| && Store(w, cards, slot + i, given[i..]) == Store(w, old(cards), slot, given)
      {
        var c := w.local(given[i]);
        if c.None? { return false; }
        assert given[i..][1..] == given[i + 1..];
        cards := cards[slot + i := c.value];
        i := i + 1;
      }
      return true;
    }

    method DoSaveCards(w: World, round: nat, hole: seq<int>, board: seq<int>) returns (code: int)
      modifies this`cards
      ensures (View(), code) == SaveCards(w, old(View()), round, hole, board)
      ensures code == 0 <==> WellDealt(w, old(View()), round, hole, board)
      ensures code == -101 <==> round != w.round(history)
      ensures code == -110 <==> round == w.round(history) && Placed(round, hole, board).None?
      ensures code == -1 <==> Readable(w, old(View()), round, hole, board) && game !in w.games
      ensures code !in {0, -1, -101, -110} ==> code == -102 - round
      ensures code == 0 ==> round <= 3 && (if round == 0 then |hole| == 2 else |board| == if round == 1 then 3 else 1)
      ensures code == 0 && round == 0 ==> HoldsAt(w, cards, 0, hole[0]) && HoldsAt(w, cards, 1, hole[1])
      ensures code == 0 && round == 1 ==>
        HoldsAt(w, cards, 2, board[0]) && HoldsAt(w, cards, 3, board[1]) && HoldsAt(w, cards, 4, board[2])
      ensures code == 0 && round == 2 ==> HoldsAt(w, cards, 5, board[0])
      ensures code == 0 && round == 3 ==> HoldsAt(w, cards, 6, board[0])
      ensures code == 0 ==> var (slot, given) := Placed(round, hole, board).value;
        Holds(w, cards, slot, given) && SameOutside(old(cards), cards, slot, |given|)
    {
      SaveExactly(w, View(), round, hole, board);
      if round != w.round(history) { return -101; }
      var ok;
      if round == 0 && |hole| == 2 {
        ok := StoreCards(w, 0, hole);
        if !ok { return -102; }
      } else if round == 1 && |board| == 3 {
        ok := StoreCards(w, 2, board);
        if !ok { return -103; }
      } else if round == 2 && |board| == 1 {
        ok := StoreCards(w, 5, board);
        if !ok { return -104; }
      } else if round == 3 && |board| == 1 {
        ok := StoreCards(w, 6, board);
        if !ok { return -105; }
      } else {
        return -110;
      }
      if game !in w.games { return -1; }
      return 0;
    }

    method CheckAction(w: World, a: Action) returns (ok: bool)
      requires game in w.games
      ensures ok == Allowed(w, View(), a)
    {
      if a.kind == Call || a.kind == Fold { return true; }
      if a.kind != Raise { return false; }
      return w.games[game].allows(history, a.size);
    }

    /** Remember the bet and give its size. */
    method NoteAction(w: World, uid: int, kind: Kind, num: int) returns (size: int)
      modifies this`lastBet
      ensures size == if kind == Raise then RaiseTo(w, View(), uid, num) else 0
      ensures lastBet == if kind == Raise then RaiseBy(w, View(), uid, num) else 0
    {
      lastBet, size := 0, 0;
      if kind == Raise {
        if uid == id {
          lastBet, size := num - w.spent(history, viewing), num;
        } else {
          lastBet, size := num, num + w.spent(history, (viewing + 1) % 2);
        }
      }
    }

    method DoAction(w: World, uid: int, kind: Kind, num: int) returns (code: int)
      modifies this`history, this`actionSeq, this`lastBet
      ensures (View(), code) == ApplyAction(w, old(View()), uid, kind, num)
      ensures Acted(w, old(View()), uid, kind, num, View(), code)
      ensures code == -1000 <==> game !in w.games
      ensures code == -1001 <==> game in w.games && CurrentPlayer(w, old(View())) != uid
    {
      code := TryAction(w, uid, kind, num);
      ApplyExactly(w, old(View()), uid, kind, num);
    }

    method TryAction(w: World, uid: int, kind: Kind, num: int) returns (code: int)
      modifies this`history, this`actionSeq, this`lastBet
      ensures (View(), code) == ApplyAction(w, old(View()), uid, kind, num)
    {
      var size := NoteAction(w, uid, kind, num);
      if game !in w.games { return -1000; }
      var current := GetCurrentPlayerID(w);
      if current != uid { return -1001; }
      var fine := CheckAction(w, Action(kind, size));
      if !fine { return -1002; }
      history := history + [Action(kind, size)];
      actionSeq := (actionSeq + 1) % 256;
      return 0;
    }

    method DoQueryRobotAction(w: World, sendable: bool) returns (sent: Option<Request>)
      modifies this`run
      ensures (View(), sent) == QueryAction(w, old(View()), sendable)
      ensures sent.Some? <==> old(run) == Ready && CurrentPlayer(w, old(View())) == id && sendable
      ensures sent.Some? ==> sent.value == Request(id, hand, w.round(history), actionSeq, history, cards)
      ensures run == if sent.Some? then Waiting else old(run)
    {
      var current := GetCurrentPlayerID(w);
      if current != id { return None; }
      sent := RequestActionFromCfr(w, sendable);
      if sent.Some? { run := Waiting; }
    }

    method RequestActionFromCfr(w: World, sendable: bool) returns (sent: Option<Request>)
      ensures sent == if run == Ready && CurrentPlayer(w, View()) == id && sendable then Some(Asked(w, View()))
        else None
    {
      if run != Ready { return None; }
      var current := GetCurrentPlayerID(w);
      if current != id { return None; }
      if !sendable { return None; }
      return Some(Request(id, hand, w.round(history), actionSeq, history, cards));
    }
  }

  // ----- the handlers, each under the robot's lock -----

  method GameBeginNotify(w: World, g: RunGame, hand: nat, banker: int, player: int, modelSet: bool)
    modifies g
    ensures g.View() == Begin(w, old(g.View()), hand, banker, player, modelSet)
    ensures modelSet && NO_LIMIT_2P in w.games ==>
      && g.run == Ready && g.hand == hand && g.history == [] && g.cards == UNDEALT && g.player == player
      && g.game == NO_LIMIT_2P && g.actionSeq == 0 && g.viewing == if banker == g.id then 1 else 0
    ensures !modelSet || NO_LIMIT_2P !in w.games ==> g.View() == old(g.View()).(game := g.game)
  {
    if !modelSet { return; }
    var code := g.DoRunMatch(w, hand, banker);
    if code == 0 { g.player := player; }
  }

  method GameSendCardsNotify(w: World, g: RunGame, round: nat, hole: seq<int>, board: seq<int>)
    modifies g
    ensures g.View() == SendCards(w, old(g.View()), round, hole, board)
    ensures g.run == if WellDealt(w, old(g.View()), round, hole, board) then old(g.run) else BadCards
    ensures g.View() == old(g.View()).(run := g.run, cards := g.cards)
  {
    var code := g.DoSaveCards(w, round, hole, board);
    if code != 0 { g.run := BadCards; }
  }

  method GameActionNotify(w: World, g: RunGame, uid: int, kind: Kind, num: int)
    modifies g
    ensures g.View() == PlayerAction(w, old(g.View()), uid, kind, num)
    ensures uid == old(g.id) ==> g.View() == old(g.View())
    ensures uid != old(g.id) ==>
      var code := if g.history != old(g.history) then 0 else -1;
      Acted(w, old(g.View()), uid, kind, num, g.View().(run := old(g.run)), code)
    ensures g.run == if uid != old(g.id) && g.history == old(g.history) then BadPlayerAction else old(g.run)
  {
    if uid == g.id { return; }
    var code := g.DoAction(w, uid, kind, num);
    if code != 0 { g.run := BadPlayerAction; }
  }

  method QueryActionResp(w: World, g: RunGame, q: Request, decoded: Option<Action>) returns (sent: Option<Response>)
    modifies g
    ensures (g.View(), sent) == Answer(w, old(g.View()), q, decoded)
    ensures Answered(w, old(g.View()), q, decoded, g.View(), sent)
    ensures sent.Some? <==> old(g.run) == Waiting && g.run == Ready
  {
    AnswerExactly(w, g.View(), q, decoded);
    var toPlatform, succeeded := true, false;
    if q.hand != g.hand {
      toPlatform := false;
    } else if q.round != w.round(g.history) {
      toPlatform := false;
    } else if g.run != Waiting {
    } else if decoded.None? {
    } else if q.actionSeq != g.actionSeq {
      toPlatform := false;
    } else {
      var code := g.DoAction(w, g.id, decoded.value.kind, decoded.value.size);
      succeeded := code == 0;
    }
    if toPlatform && g.run == Waiting {
      g.run := Ready;
      return Some(if succeeded then Response(decoded.value.kind, g.lastBet) else FOLD);
    }
    return None;
  }

  method CheckRunGameTimeout(g: RunGame, late: bool) returns (sent: Option<Response>)
    modifies g
    ensures (g.View(), sent) == Timeout(old(g.View()), late)
    ensures sent.Some? <==> old(g.run) == Waiting && g.run != Waiting
    ensures sent.Some? <==> old(g.run) == Waiting && late
    ensures sent.Some? ==> sent == Some(Response(Fold, 0)) && g.run == BadRobotAction
    ensures g.View() == old(g.View()).(run := g.run) && (sent.None? ==> g.run == old(g.run))
  {
    if g.run == Waiting && late {
      g.run := BadRobotAction;
      return Some(FOLD);
    }
    return None;
  }
}
