/**
  The records of components/lobby/types.ts shared by the lobby modules.
  Timestamps are milliseconds since the epoch; the `Date` objects of the
  source carry nothing else the lobby logic reads.
 */
module LobbyTypes {
  import opened Basics

  datatype Player = Player(id: string, username: string, avatar: string,
                           isReady: bool, isHost: bool, isOnline: bool)

  /** The `type` field of a chat message: `'text' | 'emoji' | 'system'`. */
  datatype MessageKind = TextMessage | EmojiMessage | SystemMessage

  datatype ChatMessage = ChatMessage(id: string, senderId: string, senderName: string,
                                     content: string, timestamp: int, kind: MessageKind)

  datatype Difficulty = Easy | Medium | Hard

  /** A question written in the custom-quiz form; `explanation` is optional. */
  datatype CustomQuestion = CustomQuestion(id: string, question: string, options: seq<string>,
                                           correctAnswer: string, explanation: Option<string>)

  /** The room's quiz settings; the last two fields are optional in the source. */
  datatype QuizSettings = QuizSettings(topic: string, difficulty: Difficulty,
                                       questionCount: int, timePerQuestion: int,
                                       allowHints: bool, showCorrectAnswers: bool,
                                       isCustomQuiz: Option<bool>,
                                       customQuestions: Option<seq<CustomQuestion>>)

  datatype PracticeQuestion = PracticeQuestion(id: string, question: string, options: seq<string>,
                                               correctAnswer: string, explanation: string)

  datatype LeaderboardEntry = LeaderboardEntry(playerId: string, playerName: string, score: int,
                                               rank: int, avatar: string)

  predicate IsReady(p: Player)
  {
    p.isReady
  }

  predicate IsOnline(p: Player)
  {
    p.isOnline
  }

  predicate IsOnlineAndReady(p: Player)
  {
    p.isOnline && p.isReady
  }
}
