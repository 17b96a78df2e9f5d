/**
  The lobby screen of components/lobby/LobbyScreen.tsx, as one state with
  one step per handler: the room code it opens with, the start rule, the
  ten-second countdown that starts the quiz, the settings dialog, kicking,
  and the two ways of posting to the chat. Message ids and times are
  parameters.
 */
module LobbyScreen {
  import opened Basics
  import opened Text
  import opened LobbyTypes
  import opened LobbyUtils
  import opened LobbyHooks
  import opened MockData
  import ChatBox
  import SettingsModal

  datatype Lobby = Lobby(roomCode: string, players: seq<Player>, chat: seq<ChatMessage>,
                         settings: QuizSettings, countdown: Countdown, modals: Modals)

  /** `initialRoomCode || generateRoomCode()`: a non-empty code passed in
      is kept as it is, and otherwise a generated one is used. */
  method ChooseRoomCode(initialRoomCode: string, draws: seq<real>) returns (code: string)
    requires |draws| == 6 && forall i :: 0 <= i < |draws| ==> 0.0 <= draws[i] < 1.0
    ensures initialRoomCode != "" ==> code == initialRoomCode
    ensures initialRoomCode == "" ==> IsValidRoomCode(code) && GeneratedBy(code, draws)
  {
    if initialRoomCode != "" {
      code := initialRoomCode;
    } else {
      code := GenerateRoomCode(draws);
    }
  }

  /** The lobby as it opens: the mock players, an empty chat, the hook's
      settings, a stopped ten-second countdown and no dialog open. The
      opening settings pass the settings dialog's checks and name a topic
      the dialog offers, so saving them unedited succeeds. */
  method OpenLobby(initialRoomCode: string, draws: seq<real>) returns (l: Lobby)
    requires |draws| == 6 && forall i :: 0 <= i < |draws| ==> 0.0 <= draws[i] < 1.0
    ensures initialRoomCode != "" ==> l.roomCode == initialRoomCode
    ensures initialRoomCode == "" ==> IsValidRoomCode(l.roomCode)
    ensures l.players == MockPlayers && l.chat == [] && l.settings == DefaultQuizSettings
    ensures l.countdown == Countdown(10, false, false) && l.modals == ModalsClosed
    ensures l.settings.topic in AvailableTopics
    ensures SettingsModal.QuestionCountInRange(l.settings) && SettingsModal.TimePerQuestionInRange(l.settings)
  {
    DefaultTopicAvailable();
    var code := ChooseRoomCode(initialRoomCode, draws);
    l := Lobby(code, MockPlayers, [], InitialSettings, NewCountdown(10), ModalsClosed);
  }

  /** `canStartQuiz`: at least two players online, at least one of them
      ready. */
  function CanStartQuiz(players: seq<Player>): (b: bool)
    ensures b <==> OnlinePlayerCount(players) >= 2
                   && exists i :: 0 <= i < |players| && players[i].isOnline && players[i].isReady
  {
    var ready := Filter(IsOnlineAndReady, players);
    if |ready| > 0 then
      assert ready[0] in players;
      |Filter(IsOnline, players)| >= 2
    else
      assert forall i :: 0 <= i < |players| && players[i].isOnline && players[i].isReady ==> players[i] in ready;
      false
  }

  /** Starting does not wait for everybody: the mock lobby can start while
      one online player is still not ready. */
  lemma StartWithoutEveryoneReady()
    ensures CanStartQuiz(MockPlayers)
    ensures !AreAllPlayersReady(MockPlayers)
  {
    assert MockPlayers[0].isOnline && MockPlayers[0].isReady;
    assert MockPlayers[1].isOnline && !MockPlayers[1].isReady;
    assert Filter(IsOnline, MockPlayers) == MockPlayers[..3] by {
      assert MockPlayers == MockPlayers[..3] + [MockPlayers[3]];
      FilterAppend(IsOnline, MockPlayers[..3], [MockPlayers[3]]);
      FilterAll(IsOnline, MockPlayers[..3]);
      assert [MockPlayers[3]][..0] == [];
    }
  }

  /** When everybody online is ready, two online players are enough. */
  lemma AllReadyCanStart(players: seq<Player>)
    requires AreAllPlayersReady(players) && OnlinePlayerCount(players) >= 2
    ensures CanStartQuiz(players)
  {
    var i :| 0 <= i < |players| && players[i].isOnline;
    assert players[i].isReady;
  }

  /** `handleStartQuiz`: a countdown from ten seconds. */
  function StartQuiz(l: Lobby): (r: Lobby)
    ensures r.countdown == Countdown(10, true, false)
    ensures r.(countdown := l.countdown) == l
  {
    l.(countdown := StartCountdown(l.countdown, Some(10)))
  }

  /** One second of the lobby's countdown; `started` says whether the
      completion effect calls `onStartQuiz`, which it does when the
      completion flag turns on. */
  function TickLobby(l: Lobby): (r: (Lobby, bool))
    ensures r.0.(countdown := l.countdown) == l
    ensures r.1 <==> !l.countdown.isComplete && r.0.countdown.isComplete
  {
    var c := Tick(l.countdown);
    (l.(countdown := c), !l.countdown.isComplete && c.isComplete)
  }

  /** `n` seconds of the lobby. */
  function TicksLobby(l: Lobby, n: nat): Lobby
    decreases n
  {
    if n == 0 then l else TicksLobby(TickLobby(l).0, n - 1)
  }

  lemma {:induction false} TicksLobbyCountdown(l: Lobby, n: nat)
    ensures TicksLobby(l, n).countdown == Ticks(l.countdown, n)
    ensures TicksLobby(l, n).(countdown := l.countdown) == l
    decreases n
  {
    if n > 0 {
      TicksLobbyCountdown(TickLobby(l).0, n - 1);
    }
  }

  /** After the host presses start, the quiz starts on the tenth second
      and not on any earlier one. */
  lemma {:induction false} QuizStartsOnTenthTick(l: Lobby, k: nat)
    requires 1 <= k <= 10
    ensures TickLobby(TicksLobby(StartQuiz(l), k - 1)).1 <==> k == 10
  {
    var s := StartQuiz(l);
    TicksLobbyCountdown(s, k - 1);
    CountdownCompletes(s.countdown, k - 1);
    if k < 10 {
      CountdownCompletes(s.countdown, k);
      assert Ticks(s.countdown, k) == Tick(Ticks(s.countdown, k - 1)) by {
        TicksLast(s.countdown, k);
      }
    }
  }

  /** The last of `n` ticks can be split off. */
  lemma {:induction false} TicksLast(c: Countdown, n: nat)
    requires n >= 1
    ensures Ticks(c, n) == Tick(Ticks(c, n - 1))
    decreases n
  {
    if n > 1 {
      TicksLast(Tick(c), n - 1);
    }
  }

  /** The host's cancel button stops the countdown; other players have no
      such button. */
  function CancelCountdown(l: Lobby, isHost: bool): (r: Lobby)
    ensures isHost ==> !r.countdown.isActive && r.countdown.timeRemaining == l.countdown.timeRemaining
    ensures !isHost ==> r == l
    ensures r.(countdown := l.countdown) == l
  {
    if isHost then l.(countdown := StopCountdown(l.countdown)) else l
  }

  /** `handleEditSettings`. */
  function EditSettings(l: Lobby): (r: Lobby)
    ensures r.modals.showSettings
    ensures r.(modals := l.modals) == l
  {
    l.(modals := OpenSettingsModal(l.modals))
  }

  /** `handleSaveSettings`: the saved settings replace the room's, and the
      dialog closes. */
  function SaveSettings(l: Lobby, s: QuizSettings): (r: Lobby)
    ensures r.settings == s && !r.modals.showSettings
    ensures r.modals.(showSettings := l.modals.showSettings) == l.modals
    ensures r.(settings := l.settings, modals := l.modals) == l
  {
    l.(settings := s, modals := CloseSettingsModal(l.modals))
  }

  /** `handleKickPlayer`. */
  function Kick(l: Lobby, playerId: string): (r: Lobby)
    ensures forall p :: p in r.players <==> p in l.players && p.id != playerId
    ensures r.(players := l.players) == l
  {
    l.(players := KickPlayer(l.players, playerId))
  }

  /** `handleSendMessage`: a text message from the current user. */
  function SendMessage(l: Lobby, user: Player, content: string, id: string, timestamp: int): (r: Lobby)
    ensures r.chat == l.chat + [ChatMessage(id, user.id, user.username, content, timestamp, TextMessage)]
    ensures r.(chat := l.chat) == l
  {
    l.(chat := AddChatMessage(l.chat, user.id, user.username, content, TextMessage, id, timestamp))
  }

  /** `handleSendEmoji`, reached through the chat's emoji picker: an emoji
      message from the current user, the emoji unchanged. */
  function SendEmoji(l: Lobby, user: Player, emoji: string, id: string, timestamp: int): (r: Lobby)
    ensures r.chat == l.chat + [ChatMessage(id, user.id, user.username, emoji, timestamp, EmojiMessage)]
    ensures r.(chat := l.chat) == l
  {
    l.(chat := AddChatMessage(l.chat, user.id, user.username, emoji, EmojiMessage, id, timestamp))
  }

  /** Picking an emoji in the chat's picker: the emoji message is posted
      and the picker is closed. */
  function EmojiClick(l: Lobby, user: Player, showEmojiPicker: bool, emoji: string, id: string, timestamp: int)
    : (r: (Lobby, bool))
    ensures !r.1
    ensures r.0.chat == l.chat + [ChatMessage(id, user.id, user.username, emoji, timestamp, EmojiMessage)]
    ensures r.0.(chat := l.chat) == l
  {
    var (show, sent) := ChatBox.HandleEmojiClick(showEmojiPicker, emoji);
    (SendEmoji(l, user, sent, id, timestamp), show)
  }

  /** Whatever the current user posts, by text or by emoji, shows as their
      own message on their screen and as nobody else's. */
  lemma PostedMessagesAreOwn(l: Lobby, user: Player, content: string, id: string, timestamp: int, viewer: string)
    ensures var r := SendMessage(l, user, content, id, timestamp);
            ChatBox.IsOwnMessage(r.chat[|r.chat| - 1], viewer) <==> viewer == user.id
    ensures var r := SendEmoji(l, user, content, id, timestamp);
            ChatBox.IsOwnMessage(r.chat[|r.chat| - 1], viewer) <==> viewer == user.id
  {
  }

  /** Typing `input` into the chat box and pressing send: returns the
      lobby and what remains in the input. */
  function ChatSend(l: Lobby, user: Player, input: string, id: string, timestamp: int): (r: (Lobby, string))
  {
    var (rest, sent) := ChatBox.HandleSendMessage(input);
    match sent
    case Some(content) => (SendMessage(l, user, content, id, timestamp), rest)
    case None => (l, rest)
  }

  /** The chat grows by one message exactly when the input is sendable;
      that message is the user's, of at most 200 characters, and carries
      no angle bracket. */
  lemma ChatSendPostsSafeText(l: Lobby, user: Player, input: string, id: string, timestamp: int)
    ensures var (r, rest) := ChatSend(l, user, input, id, timestamp);
            && (|r.chat| == |l.chat| + 1 <==> !IsBlank(input) && |Trim(input)| <= MaxMessageLength)
            && (|r.chat| == |l.chat| ==> r == l && rest == input)
            && (|r.chat| == |l.chat| + 1 ==>
                  var m := r.chat[|l.chat|];
                  && rest == "" && r.chat[..|l.chat|] == l.chat
                  && m.senderId == user.id && m.kind == TextMessage
                  && |m.content| <= MaxMessageLength && '<' !in m.content && '>' !in m.content)
  {
    var (r, rest) := ChatSend(l, user, input, id, timestamp);
    if |r.chat| == |l.chat| + 1 {
      assert r.chat[..|l.chat|] == l.chat;
    }
  }
}
