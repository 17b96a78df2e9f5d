/**
  The state updates inside the React hooks of components/lobby/hooks.ts,
  each written as a pure step from the old state to the new one: the
  player list and chat of `useLobbyState`, the countdown of
  `useCountdown`, the confirm dialog of `useModals`, the fun-fact
  rotation of `useFunFacts` and the practice question of
  `usePracticeQuiz`. Timer callbacks become explicit `Tick` steps, and a
  stored callback becomes an action token that the step reports as run.
 */
module LobbyHooks {
  import opened Basics
  import opened LobbyTypes
  import opened LobbyUtils

  // ---------------------------------------------------------------------------
  // useLobbyState
  // ---------------------------------------------------------------------------

  /** The settings `useLobbyState` starts with. */
  const InitialSettings: QuizSettings :=
    QuizSettings("Computer Science Fundamentals", Medium, 10, 30, true, true, None, None)

  /** `updatePlayerReady`: every player with this id has `isReady`
      flipped; nothing else about any player, nor their order, changes. */
  function UpdatePlayerReady(players: seq<Player>, playerId: string): (r: seq<Player>)
    ensures |r| == |players|
    ensures forall i :: 0 <= i < |r| ==> r[i].(isReady := players[i].isReady) == players[i]
    ensures forall i :: 0 <= i < |r| ==>
              (r[i].isReady <==> (if players[i].id == playerId then !players[i].isReady else players[i].isReady))
  {
    Map((p: Player) => if p.id == playerId then p.(isReady := !p.isReady) else p, players)
  }

  /** One round of the mock connection's simulated ready changes, every
      five seconds: when the round's draw exceeds 0.8, each player who is
      not the host flips `isReady` when their own draw exceeds 0.7. The
      draw at a host's position is never looked at. */
  function SimulateReadyChanges(players: seq<Player>, roll: real, draws: seq<real>): (r: seq<Player>)
    requires |draws| == |players|
    ensures |r| == |players|
    ensures forall i :: 0 <= i < |r| ==> r[i].(isReady := players[i].isReady) == players[i]
    ensures forall i :: 0 <= i < |r| ==>
              (r[i].isReady != players[i].isReady <==> roll > 0.8 && !players[i].isHost && draws[i] > 0.7)
  {
    if roll > 0.8 then
      seq(|players|, i requires 0 <= i < |players| =>
            var p := players[i];
            if !p.isHost && draws[i] > 0.7 then p.(isReady := !p.isReady) else p)
    else players
  }

  /** The simulation never touches a host, so a host's readiness only
      changes through `updatePlayerReady`. */
  lemma SimulationSparesHosts(players: seq<Player>, roll: real, draws: seq<real>, i: int)
    requires |draws| == |players| && 0 <= i < |players| && players[i].isHost
    ensures SimulateReadyChanges(players, roll, draws)[i] == players[i]
  {
    var r := SimulateReadyChanges(players, roll, draws);
    assert r[i].isReady == players[i].isReady;
  }

  /** Toggling the same player twice restores the list. */
  lemma UpdatePlayerReadyInvolution(players: seq<Player>, playerId: string)
    ensures UpdatePlayerReady(UpdatePlayerReady(players, playerId), playerId) == players
  {
    var r := UpdatePlayerReady(UpdatePlayerReady(players, playerId), playerId);
    assert forall i :: 0 <= i < |r| ==> r[i] == players[i];
  }

  /** With unique ids, toggling an online player moves the ready count
      of `PlayerListPanel`'s statistic by exactly one. */
  lemma UpdatePlayerReadyCount(players: seq<Player>, k: int)
    requires 0 <= k < |players| && players[k].isOnline
    requires forall i :: 0 <= i < |players| && i != k ==> players[i].id != players[k].id
    ensures var r := UpdatePlayerReady(players, players[k].id);
            CountWhere(IsOnlineAndReady, r)
              == CountWhere(IsOnlineAndReady, players) + (if players[k].isReady then -1 else 1)
  {
    var r := UpdatePlayerReady(players, players[k].id);
    var p := players[k].(isReady := !players[k].isReady);
    assert r == players[k := p];
    CountWhereUpdate(IsOnlineAndReady, players, k, p);
  }

  /** The test `kickPlayer` hands to `filter`. */
  function OtherThan(playerId: string): (f: Player -> bool)
    ensures forall p :: f(p) <==> p.id != playerId
  {
    (p: Player) => p.id != playerId
  }

  /** `kickPlayer`: the players with this id leave; everybody else stays. */
  function KickPlayer(players: seq<Player>, playerId: string): (r: seq<Player>)
    ensures |r| <= |players|
    ensures forall p :: p in r <==> p in players && p.id != playerId
  {
    Filter(OtherThan(playerId), players)
  }

  /** Kicking works position by position, so the players who stay keep
      their order. */
  lemma KickPlayerAppend(xs: seq<Player>, ys: seq<Player>, playerId: string)
    ensures KickPlayer(xs + ys, playerId) == KickPlayer(xs, playerId) + KickPlayer(ys, playerId)
  {
    FilterAppend(OtherThan(playerId), xs, ys);
  }

  /** Kicking an id nobody has changes nothing. */
  lemma KickPlayerAbsent(players: seq<Player>, playerId: string)
    requires forall i :: 0 <= i < |players| ==> players[i].id != playerId
    ensures KickPlayer(players, playerId) == players
  {
    FilterAll(OtherThan(playerId), players);
  }

  /** The players that have a given id. */
  function WithId(playerId: string): (f: Player -> bool)
    ensures forall p :: f(p) <==> p.id == playerId
  {
    (p: Player) => p.id == playerId
  }

  /** The list shrinks by exactly the number of players that have the id. */
  lemma KickPlayerCount(players: seq<Player>, playerId: string)
    ensures |KickPlayer(players, playerId)| == |players| - CountWhere(WithId(playerId), players)
  {
    FilterCount(OtherThan(playerId), players);
    CountWhereComplement(OtherThan(playerId), WithId(playerId), players);
  }

  /** `addChatMessage`: one message with the caller's sender, content and
      type, and the given id and time, is appended; earlier messages stay. */
  function AddChatMessage(messages: seq<ChatMessage>, senderId: string, senderName: string,
                          content: string, kind: MessageKind, id: string, timestamp: int): (r: seq<ChatMessage>)
    ensures |r| == |messages| + 1 && r[..|messages|] == messages
    ensures r[|messages|] == ChatMessage(id, senderId, senderName, content, timestamp, kind)
  {
    messages + [ChatMessage(id, senderId, senderName, content, timestamp, kind)]
  }

  // ---------------------------------------------------------------------------
  // useCountdown
  // ---------------------------------------------------------------------------

  datatype Countdown = Countdown(timeRemaining: int, isActive: bool, isComplete: bool)

  function NewCountdown(initialTime: int): Countdown
  {
    Countdown(initialTime, false, false)
  }

  /** JavaScript truthiness of an optional number: present and non-zero. */
  predicate Truthy(d: Option<int>)
  {
    d.Some? && d.value != 0
  }

  /** `startCountdown`: a truthy duration replaces the time; the countdown
      is always running and not complete afterwards. */
  function StartCountdown(c: Countdown, duration: Option<int>): (r: Countdown)
    ensures r.isActive && !r.isComplete
    ensures Truthy(duration) ==> r.timeRemaining == duration.value
    ensures !Truthy(duration) ==> r.timeRemaining == c.timeRemaining
  {
    if Truthy(duration) then Countdown(duration.value, true, false)
    else c.(isActive := true, isComplete := false)
  }

  /** `stopCountdown`: pauses, keeping the time and the completion flag. */
  function StopCountdown(c: Countdown): (r: Countdown)
    ensures !r.isActive && r.timeRemaining == c.timeRemaining && r.isComplete == c.isComplete
  {
    c.(isActive := false)
  }

  /** `resetCountdown`: stopped, not complete, and the time is
      `duration || initialTime`. */
  function ResetCountdown(c: Countdown, initialTime: int, duration: Option<int>): (r: Countdown)
    ensures !r.isActive && !r.isComplete
    ensures r.timeRemaining == if Truthy(duration) then duration.value else initialTime
  {
    var stopped := StopCountdown(c);
    stopped.(timeRemaining := if Truthy(duration) then duration.value else initialTime, isComplete := false)
  }

  /** One second of the countdown. The interval exists only while the
      countdown is active with time left; a tick from one second or less
      ends at zero, inactive and complete, any other goes down by one. */
  function Tick(c: Countdown): (r: Countdown)
    ensures !(c.isActive && c.timeRemaining > 0) ==> r == c
    ensures c.isActive && 0 < c.timeRemaining <= 1 ==> r == Countdown(0, false, true)
    ensures c.isActive && c.timeRemaining > 1 ==> r == c.(timeRemaining := c.timeRemaining - 1)
  {
    if !(c.isActive && c.timeRemaining > 0) then c
    else if c.timeRemaining <= 1 then Countdown(0, false, true)
    else c.(timeRemaining := c.timeRemaining - 1)
  }

  /** `n` ticks in a row. */
  function Ticks(c: Countdown, n: nat): Countdown
    decreases n
  {
    if n == 0 then c else Ticks(Tick(c), n - 1)
  }

  /** Ticking never drives a non-negative time below zero, and never
      raises it. */
  lemma {:induction false} TicksStayNonNegative(c: Countdown, n: nat)
    requires c.timeRemaining >= 0
    ensures 0 <= Ticks(c, n).timeRemaining <= c.timeRemaining
    decreases n
  {
    if n > 0 {
      TicksStayNonNegative(Tick(c), n - 1);
    }
  }

  /** A running countdown from `t` seconds whose completion flag is clear
      completes after exactly `t` ticks: not before, and then at zero. */
  lemma {:induction false} CountdownCompletes(c: Countdown, k: nat)
    requires c.isActive && !c.isComplete && c.timeRemaining > 0
    ensures k < c.timeRemaining ==> Ticks(c, k) == c.(timeRemaining := c.timeRemaining - k)
    ensures Ticks(c, c.timeRemaining) == Countdown(0, false, true)
    decreases c.timeRemaining
  {
    if c.timeRemaining > 1 {
      var c' := Tick(c);
      CountdownCompletes(c', if k > 0 then k - 1 else 0);
      assert Ticks(c, c.timeRemaining) == Ticks(c', c'.timeRemaining);
    }
  }

  // ---------------------------------------------------------------------------
  // useModals
  // ---------------------------------------------------------------------------

  /** The dialogs of the lobby. The confirm dialog stores the callback to
      run, here an action token. */
  datatype Modals = Modals(showSettings: bool, showRules: bool, showConfirm: bool, confirmAction: Option<nat>)

  const ModalsClosed := Modals(false, false, false, None)

  /** `setShowSettings(true)`: the settings dialog shows; the other
      dialogs are as they were. */
  function OpenSettingsModal(m: Modals): (r: Modals)
    ensures r.showSettings
    ensures r.showRules == m.showRules && r.showConfirm == m.showConfirm && r.confirmAction == m.confirmAction
  {
    m.(showSettings := true)
  }

  /** `setShowSettings(false)`. */
  function CloseSettingsModal(m: Modals): (r: Modals)
    ensures !r.showSettings
    ensures r.showRules == m.showRules && r.showConfirm == m.showConfirm && r.confirmAction == m.confirmAction
  {
    m.(showSettings := false)
  }

  /** `setShowRules(true)`. */
  function OpenRulesModal(m: Modals): (r: Modals)
    ensures r.showRules
    ensures r.showSettings == m.showSettings && r.showConfirm == m.showConfirm && r.confirmAction == m.confirmAction
  {
    m.(showRules := true)
  }

  /** `setShowRules(false)`. */
  function CloseRulesModal(m: Modals): (r: Modals)
    ensures !r.showRules
    ensures r.showSettings == m.showSettings && r.showConfirm == m.showConfirm && r.confirmAction == m.confirmAction
  {
    m.(showRules := false)
  }

  /** Opening a closed dialog and closing it again leaves every dialog as
      it was, and the settings and rules dialogs do not interfere. */
  lemma OpenThenCloseRestores(m: Modals)
    ensures !m.showSettings ==> CloseSettingsModal(OpenSettingsModal(m)) == m
    ensures !m.showRules ==> CloseRulesModal(OpenRulesModal(m)) == m
    ensures OpenRulesModal(OpenSettingsModal(m)) == OpenSettingsModal(OpenRulesModal(m))
  {
  }

  /** `openConfirmModal`: stores the action and shows the dialog. */
  function OpenConfirmModal(m: Modals, action: nat): (r: Modals)
    ensures r.showConfirm && r.confirmAction == Some(action)
    ensures r.showSettings == m.showSettings && r.showRules == m.showRules
  {
    m.(showConfirm := true, confirmAction := Some(action))
  }

  /** `closeConfirmModal`: hides the dialog and forgets the action. */
  function CloseConfirmModal(m: Modals): (r: Modals)
    ensures !r.showConfirm && r.confirmAction.None?
    ensures r.showSettings == m.showSettings && r.showRules == m.showRules
  {
    m.(showConfirm := false, confirmAction := None)
  }

  /** `executeConfirmAction`: runs the stored action if there is one, then
      closes the dialog. Returns the new state and the actions run. */
  function ExecuteConfirmAction(m: Modals): (r: (Modals, seq<nat>))
    ensures r.0 == CloseConfirmModal(m)
    ensures |r.1| <= 1
    ensures m.confirmAction.Some? ==> r.1 == [m.confirmAction.value]
    ensures m.confirmAction.None? ==> r.1 == []
  {
    (CloseConfirmModal(m), if m.confirmAction.Some? then [m.confirmAction.value] else [])
  }

  /** Confirming twice runs the stored action once: the first run forgets it. */
  lemma ConfirmRunsAtMostOnce(m: Modals)
    ensures var (m1, run1) := ExecuteConfirmAction(m);
            var (_, run2) := ExecuteConfirmAction(m1);
            run2 == [] && |run1 + run2| <= 1
  {
  }

  // ---------------------------------------------------------------------------
  // useFunFacts
  // ---------------------------------------------------------------------------

  /** One firing of the rotation timer. No timer runs for an empty list. */
  function NextFactIndex(index: nat, count: nat): (r: nat)
    ensures count > 0 ==> r < count
    ensures count == 0 ==> r == index
  {
    if count == 0 then index else (index + 1) % count
  }

  /** The index after `n` firings. */
  function Rotate(index: nat, count: nat, n: nat): nat
    decreases n
  {
    if n == 0 then index else NextFactIndex(Rotate(index, count, n - 1), count)
  }

  lemma MulNonNegative(a: int, b: int)
    requires a >= 0 && b >= 0
    ensures a * b >= 0
  {
  }

  /** The remainder is the unique `s` in `[0, c)` with `x = q * c + s`. */
  lemma ModUnique(x: int, q: int, s: int, c: int)
    requires c > 0 && 0 <= s < c && x == q * c + s
    ensures x % c == s
  {
    var q' := x / c;
    var s' := x % c;
    assert x == q' * c + s';
    if q' > q {
      MulNonNegative(q' - q - 1, c);
      assert false;
    } else if q' < q {
      MulNonNegative(q - q' - 1, c);
      assert false;
    }
  }

  /** Adding one and reducing modulo `count` steps the remainder. */
  lemma ModStep(a: nat, count: nat)
    requires count > 0
    ensures (a % count + 1) % count == (a + 1) % count
  {
    var q := a / count;
    var r := a % count;
    assert a == q * count + r;
    if r + 1 < count {
      ModUnique(a + 1, q, r + 1, count);
      ModUnique(r + 1, 0, r + 1, count);
    } else {
      assert a + 1 == (q + 1) * count + 0;
      ModUnique(a + 1, q + 1, 0, count);
      ModUnique(r + 1, 1, 0, count);
    }
  }

  /** After `n` firings from the start the index is `n` modulo the number of
      facts, so it always names a fact. */
  lemma {:induction false} RotateFromStart(count: nat, n: nat)
    requires count > 0
    ensures Rotate(0, count, n) == n % count
    decreases n
  {
    if n > 0 {
      RotateFromStart(count, n - 1);
      ModStep(n - 1, count);
    }
  }

  /** `facts[currentFactIndex] || ''`: the fact at the index, or the empty
      string when the index names none. */
  function CurrentFact(facts: seq<string>, index: nat): (f: string)
    ensures index < |facts| ==> f == facts[index]
    ensures index >= |facts| ==> f == ""
  {
    if index < |facts| && facts[index] != "" then facts[index] else ""
  }

  // ---------------------------------------------------------------------------
  // usePracticeQuiz
  // ---------------------------------------------------------------------------

  datatype Practice = Practice(selectedAnswer: Option<string>, showResult: bool, hasAnswered: bool)

  const PracticeStart := Practice(None, false, false)

  /** `selectAnswer`: ignored once the question is answered. */
  function SelectAnswer(p: Practice, answer: string): (r: Practice)
    ensures p.hasAnswered ==> r == p
    ensures !p.hasAnswered ==> r == p.(selectedAnswer := Some(answer))
  {
    if p.hasAnswered then p else p.(selectedAnswer := Some(answer))
  }

  /** The selection is truthy: present and not the empty string. */
  predicate HasSelection(p: Practice)
  {
    p.selectedAnswer.Some? && p.selectedAnswer.value != ""
  }

  /** `submitAnswer`: takes effect only with a selection and before an
      answer, and then both marks the question answered and shows the
      result. */
  function SubmitAnswer(p: Practice): (r: Practice)
    ensures HasSelection(p) && !p.hasAnswered ==> r == p.(hasAnswered := true, showResult := true)
    ensures !(HasSelection(p) && !p.hasAnswered) ==> r == p
  {
    if HasSelection(p) && !p.hasAnswered then p.(hasAnswered := true, showResult := true) else p
  }

  /** `resetQuiz`: clears all three fields. */
  function ResetPractice(p: Practice): (r: Practice)
    ensures r.selectedAnswer.None? && !r.showResult && !r.hasAnswered
  {
    PracticeStart
  }

  /** What every reachable practice state satisfies: the result shows
      exactly when the question is answered, and an answered question has a
      non-empty selection. */
  predicate PracticeValid(p: Practice)
  {
    p.showResult == p.hasAnswered && (p.hasAnswered ==> HasSelection(p))
  }

  datatype PracticeEvent = Select(answer: string) | Submit | Reset

  function PracticeStep(p: Practice, e: PracticeEvent): Practice
  {
    match e
    case Select(a) => SelectAnswer(p, a)
    case Submit => SubmitAnswer(p)
    case Reset => ResetPractice(p)
  }

  function PracticeRun(p: Practice, events: seq<PracticeEvent>): Practice
    decreases |events|
  {
    if events == [] then p else PracticeRun(PracticeStep(p, events[0]), events[1..])
  }

  /** Every sequence of events from the start keeps the state valid. */
  lemma {:induction false} PracticeRunValid(p: Practice, events: seq<PracticeEvent>)
    requires PracticeValid(p)
    ensures PracticeValid(PracticeRun(p, events))
    decreases |events|
  {
    if events != [] {
      PracticeRunValid(PracticeStep(p, events[0]), events[1..]);
    }
  }

  /** Once answered, only a reset changes anything: the answer is frozen
      under any run of selections and submissions. */
  lemma {:induction false} AnsweredIsFrozen(p: Practice, events: seq<PracticeEvent>)
    requires p.hasAnswered
    requires forall i :: 0 <= i < |events| ==> !events[i].Reset?
    ensures PracticeRun(p, events) == p
    decreases |events|
  {
    if events != [] {
      AnsweredIsFrozen(PracticeStep(p, events[0]), events[1..]);
    }
  }
}
