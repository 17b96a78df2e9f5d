/**
  The fixed data and the random pickers of components/lobby/mockData.ts.
  `Math.random()` draws become parameters in `[0, 1)` and `Date.now()`
  becomes the parameter `now`.
 */
module MockData {
  import opened Basics
  import opened Text
  import opened LobbyTypes
  import opened LobbyUtils

  const MockPlayers: seq<Player> := [
    Player("1", "John Doe", "\U{1F468}\U{200D}\U{1F4BB}", true, true, true),
    Player("2", "Reetikesh", "\U{1F9D1}\U{200D}\U{1F393}", false, false, true),
    Player("3", "Srijan", "\U{1F469}\U{200D}\U{1F52C}", true, false, true),
    Player("4", "Alex Smith", "\U{1F9D1}\U{200D}\U{1F680}", false, false, false)
  ]

  /** The mock players have distinct ids, the first one is the only host,
      and every avatar is one `generateAvatar` can produce. */
  lemma MockPlayersWellFormed()
    ensures forall i, j :: 0 <= i < j < |MockPlayers| ==> MockPlayers[i].id != MockPlayers[j].id
    ensures forall i :: 0 <= i < |MockPlayers| ==> (MockPlayers[i].isHost <==> i == 0)
    ensures forall i :: 0 <= i < |MockPlayers| ==> MockPlayers[i].avatar in Avatars
  {
    assert MockPlayers[0].avatar == Avatars[0];
    assert MockPlayers[1].avatar == Avatars[2];
    assert MockPlayers[2].avatar == Avatars[5];
    assert MockPlayers[3].avatar == Avatars[6];
  }

  /** The texts of the mock chat, in order. */
  const MockChatTexts: seq<string> := [
    "Welcome everyone! Ready for the quiz?",
    "\U{1F389}",
    "Looking forward to it! What topic are we doing?",
    "Computer Science Fundamentals - should be fun!",
    "Just joined! Give me a sec to get ready \U{1F44D}"
  ]

  /** A mock message sent by the mock player `k`. */
  function MockMessage(id: string, k: nat, text: string, timestamp: int, kind: MessageKind): (m: ChatMessage)
    requires k < |MockPlayers|
    ensures m.senderId == MockPlayers[k].id && m.senderName == MockPlayers[k].username
    ensures m.timestamp == timestamp
  {
    ChatMessage(id, MockPlayers[k].id, MockPlayers[k].username, text, timestamp, kind)
  }

  /** The mock chat, each message a fixed number of minutes before `now`. */
  function MockChatMessages(now: int): (r: seq<ChatMessage>)
    ensures |r| == 5
    ensures forall i, j :: 0 <= i < j < |r| ==> r[i].timestamp < r[j].timestamp < now
    ensures forall i :: 0 <= i < |r| ==>
              exists k :: 0 <= k < |MockPlayers| && MockPlayers[k].id == r[i].senderId
                                                 && MockPlayers[k].username == r[i].senderName
  {
    var senders := [0, 1, 2, 0, 3];
    var r := [
      MockMessage("1", 0, MockChatTexts[0], now - 300000, TextMessage),
      MockMessage("2", 1, MockChatTexts[1], now - 240000, EmojiMessage),
      MockMessage("3", 2, MockChatTexts[2], now - 180000, TextMessage),
      MockMessage("4", 0, MockChatTexts[3], now - 120000, TextMessage),
      MockMessage("5", 3, MockChatTexts[4], now - 60000, TextMessage)
    ];
    assert forall i :: 0 <= i < 5 ==>
      MockPlayers[senders[i]].id == r[i].senderId && MockPlayers[senders[i]].username == r[i].senderName;
    r
  }

  /** `defaultQuizSettings`. */
  const DefaultQuizSettings: QuizSettings :=
    QuizSettings("Computer Science Fundamentals", Medium, 10, 30, true, true, None, None)

  const MockLeaderboard: seq<LeaderboardEntry> := [
    LeaderboardEntry("3", "Srijan", 95, 1, "\U{1F469}\U{200D}\U{1F52C}"),
    LeaderboardEntry("1", "John Doe", 87, 2, "\U{1F468}\U{200D}\U{1F4BB}"),
    LeaderboardEntry("2", "Reetikesh", 82, 3, "\U{1F9D1}\U{200D}\U{1F393}")
  ]

  /** The leaderboard is ranked 1, 2, 3 by falling score, and each entry
      names a mock player with that player's name and avatar. */
  lemma MockLeaderboardConsistent()
    ensures forall i :: 0 <= i < |MockLeaderboard| ==> MockLeaderboard[i].rank == i + 1
    ensures forall i, j :: 0 <= i < j < |MockLeaderboard| ==> MockLeaderboard[i].score > MockLeaderboard[j].score
    ensures forall i :: 0 <= i < |MockLeaderboard| ==>
              exists k :: 0 <= k < |MockPlayers| && MockPlayers[k].id == MockLeaderboard[i].playerId
                          && MockPlayers[k].username == MockLeaderboard[i].playerName
                          && MockPlayers[k].avatar == MockLeaderboard[i].avatar
  {
    assert MockPlayers[2].id == MockLeaderboard[0].playerId;
    assert MockPlayers[0].id == MockLeaderboard[1].playerId;
    assert MockPlayers[1].id == MockLeaderboard[2].playerId;
  }

  const MockPracticeQuestions: seq<PracticeQuestion> := [
    PracticeQuestion("practice-1", "What does CPU stand for?",
      ["Central Processing Unit", "Computer Personal Unit", "Core Processing Utility", "Central Program Unit"],
      "Central Processing Unit",
      "CPU stands for Central Processing Unit, which is the main component that executes instructions in a computer."),
    PracticeQuestion("practice-2", "What is the time complexity of binary search?",
      ["O(n)", "O(n log n)", "O(log n)", "O(1)"],
      "O(log n)",
      "Binary search has O(log n) time complexity because it eliminates half of the remaining elements in each step."),
    PracticeQuestion("practice-3", "Which data structure uses LIFO principle?",
      ["Queue", "Array", "Stack", "Tree"],
      "Stack",
      "Stack follows Last In, First Out (LIFO) principle where the last element added is the first one to be removed.")
  ]

  /** Every practice question lists its correct answer among its options. */
  lemma PracticeAnswersListed()
    ensures forall i :: 0 <= i < |MockPracticeQuestions| ==>
              MockPracticeQuestions[i].correctAnswer in MockPracticeQuestions[i].options
  {
    assert MockPracticeQuestions[0].options[0] == MockPracticeQuestions[0].correctAnswer;
    assert MockPracticeQuestions[1].options[2] == MockPracticeQuestions[1].correctAnswer;
    assert MockPracticeQuestions[2].options[2] == MockPracticeQuestions[2].correctAnswer;
  }

  const FunFacts: seq<string> := [
    "The first computer bug was an actual bug - a moth found in a Harvard computer in 1947! \U{1F41B}",
    "The term 'debugging' was coined by Admiral Grace Hopper when she found that moth! \U{1F50D}",
    "The first computer programmer was Ada Lovelace in the 1840s! \U{1F469}\U{200D}\U{1F4BB}",
    "There are more possible games of chess than atoms in the observable universe! \U{265F}\U{FE0F}",
    "The first 1GB hard drive weighed over 500 pounds and cost $40,000! \U{1F4BE}",
    "Python was named after Monty Python's Flying Circus, not the snake! \U{1F40D}",
    "The '@' symbol was used in email for the first time in 1971! \U{1F4E7}",
    "The first website ever created is still online: info.cern.ch! \U{1F310}",
    "JavaScript was created in just 10 days by Brendan Eich! \U{26A1}",
    "The term 'Wi-Fi' doesn't actually stand for anything - it's just a made-up name! \U{1F4F6}"
  ]

  /** `availableTopics`, the choices of the settings dialog. */
  const AvailableTopics: seq<string> := [
    "Computer Science Fundamentals", "Physics", "Biology", "Mechanical Engineering",
    "General Knowledge", "Programming", "Android Development", "Aptitude", "Movies", "Literature"
  ]

  /** `commonEmojis`, the chat's emoji picker. */
  const CommonEmojis: seq<string> := [
    "\U{1F44D}", "\U{1F44E}", "\U{1F600}", "\U{1F602}", "\U{1F914}", "\U{1F62E}",
    "\U{1F389}", "\U{1F525}", "\U{1F4AF}", "\U{2764}\U{FE0F}", "\U{1F44F}", "\U{1F680}"
  ]

  /** The default settings name an available topic. */
  lemma DefaultTopicAvailable()
    ensures DefaultQuizSettings.topic in AvailableTopics
  {
    assert AvailableTopics[0] == DefaultQuizSettings.topic;
  }

  // ---------------------------------------------------------------------------
  // Random pickers
  // ---------------------------------------------------------------------------

  /** `Math.floor(r * n)` for a draw `r` in `[0, 1)`: the floor of the
      scaled draw, always a valid index. */
  function PickIndex(r: real, n: nat): (k: nat)
    requires 0.0 <= r < 1.0 && n > 0
    ensures k < n
    ensures k as real <= r * n as real < k as real + 1.0
  {
    var x := r * n as real;
    assert 0.0 <= x < n as real;
    x.Floor
  }

  /** Every index is hit by some draw, so no element is unreachable. */
  lemma PickIndexCovers(k: nat, n: nat)
    requires k < n
    ensures var r := k as real / n as real;
            0.0 <= r < 1.0 && PickIndex(r, n) == k
  {
    var r := k as real / n as real;
    assert r * n as real == k as real;
  }

  const RoomCodeAlphabet: string := "ABCDEFGHIJKLMNOPQRSTUVWXYZ0123456789"

  /** Where a room-code character sits in the alphabet. */
  function AlphabetIndex(c: char): (k: nat)
    requires IsRoomCodeChar(c)
    ensures k < |RoomCodeAlphabet| && RoomCodeAlphabet[k] == c
  {
    if IsUpper(c) then c as int - 'A' as int else 26 + c as int - '0' as int
  }

  /** The alphabet is exactly the room-code character class. */
  lemma RoomCodeAlphabetIsClass()
    ensures |RoomCodeAlphabet| == 36
    ensures forall k :: 0 <= k < |RoomCodeAlphabet| ==> IsRoomCodeChar(RoomCodeAlphabet[k])
    ensures forall c :: IsRoomCodeChar(c) ==> c in RoomCodeAlphabet
  {
    forall c | IsRoomCodeChar(c)
      ensures c in RoomCodeAlphabet
    {
      assert RoomCodeAlphabet[AlphabetIndex(c)] == c;
    }
  }

  /** `generateRoomCode`: six characters, each picked from the alphabet by
      one draw. */
  method GenerateRoomCode(draws: seq<real>) returns (code: string)
    requires |draws| == 6 && forall i :: 0 <= i < |draws| ==> 0.0 <= draws[i] < 1.0
    ensures IsValidRoomCode(code)
    ensures GeneratedBy(code, draws)
  {
    RoomCodeAlphabetIsClass();
    code := "";
    for i := 0 to 6
      invariant |code| == i
      invariant forall j :: 0 <= j < i ==> code[j] == RoomCodeAlphabet[PickIndex(draws[j], 36)]
      invariant forall j :: 0 <= j < i ==> IsRoomCodeChar(code[j])
    {
      code := code + [RoomCodeAlphabet[PickIndex(draws[i], |RoomCodeAlphabet|)]];
    }
  }

  /** The draw that picks a given room-code character. */
  function DrawFor(c: char): (r: real)
    requires IsRoomCodeChar(c)
    ensures 0.0 <= r < 1.0 && RoomCodeAlphabet[PickIndex(r, 36)] == c
  {
    var k := AlphabetIndex(c);
    PickIndexCovers(k, 36);
    var r := k as real / 36 as real;
    assert PickIndex(r, 36) == k;
    r
  }

  /** Six draws that pick the characters of `code`, as `GenerateRoomCode`
      does. */
  predicate GeneratedBy(code: string, draws: seq<real>)
  {
    && |code| == 6 && |draws| == 6
    && (forall i :: 0 <= i < 6 ==> 0.0 <= draws[i] < 1.0)
    && (forall i :: 0 <= i < 6 ==> code[i] == RoomCodeAlphabet[PickIndex(draws[i], 36)])
  }

  /** The codes the generator can produce are exactly the valid room
      codes: every outcome is valid and every valid code is the outcome of
      some six draws. */
  lemma GeneratableIffValid(code: string)
    ensures IsValidRoomCode(code) <==> exists draws :: GeneratedBy(code, draws)
  {
    RoomCodeAlphabetIsClass();
    if IsValidRoomCode(code) {
      var draws := seq(6, i requires 0 <= i < 6 && IsRoomCodeChar(code[i]) => DrawFor(code[i]));
      assert forall i :: 0 <= i < 6 ==> draws[i] == DrawFor(code[i]);
      assert GeneratedBy(code, draws);
    }
  }

  /** `getRandomPracticeQuestion`. */
  function GetRandomPracticeQuestion(r: real): (q: PracticeQuestion)
    requires 0.0 <= r < 1.0
    ensures q in MockPracticeQuestions
  {
    MockPracticeQuestions[PickIndex(r, |MockPracticeQuestions|)]
  }

  /** `getRandomFunFact`. */
  function GetRandomFunFact(r: real): (f: string)
    requires 0.0 <= r < 1.0
    ensures f in FunFacts
  {
    FunFacts[PickIndex(r, |FunFacts|)]
  }
}
