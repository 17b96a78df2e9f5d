/**
  The player list of components/lobby/components/PlayerListPanel.tsx: the
  guards on its two buttons and the statistics under the list. The lobby
  passes a kick handler only to the host, so `hasKickHandler` is a
  parameter of its own.
 */
module PlayerListPanel {
  import opened Basics
  import opened LobbyTypes
  import opened LobbyUtils
  import opened LobbyHooks

  /** The kick button shows for the host, when a kick handler exists, on
      every row but the current user's. */
  predicate KickButtonShown(p: Player, currentUserId: string, isHost: bool, hasKickHandler: bool)
  {
    isHost && hasKickHandler && p.id != currentUserId
  }

  /** `handleReadyToggle`: a click on somebody else's row (where the
      button is disabled anyway) does nothing; on the own row it toggles
      the current user, and nobody else. */
  function HandleReadyToggle(players: seq<Player>, currentUserId: string, playerId: string): (r: seq<Player>)
    ensures playerId != currentUserId ==> r == players
    ensures |r| == |players|
    ensures forall i :: 0 <= i < |r| && players[i].id != currentUserId ==> r[i] == players[i]
    ensures forall i :: 0 <= i < |r| && players[i].id == currentUserId && playerId == currentUserId ==>
              r[i] == players[i].(isReady := !players[i].isReady)
  {
    if playerId == currentUserId then UpdatePlayerReady(players, playerId) else players
  }

  /** The ready button is rendered only on the rows of online players,
      and it is enabled only on the current user's own row. */
  predicate ReadyButtonShown(p: Player)
  {
    p.isOnline
  }

  predicate ReadyButtonEnabled(p: Player, currentUserId: string)
  {
    p.id == currentUserId
  }

  /** A click on the ready button of row `p`: a button that is not rendered
      or is disabled cannot be clicked, so nothing happens; otherwise the
      click reaches `handleReadyToggle` with the row's id. */
  function ClickReadyButton(players: seq<Player>, currentUserId: string, p: Player): (r: seq<Player>)
    ensures |r| == |players|
    ensures !ReadyButtonShown(p) || !ReadyButtonEnabled(p, currentUserId) ==> r == players
  {
    if ReadyButtonShown(p) && ReadyButtonEnabled(p, currentUserId) then HandleReadyToggle(players, currentUserId, p.id)
    else players
  }

  /** A click on a listed player's ready button changes the list exactly
      when that button is rendered and enabled: an offline user cannot
      change their own readiness from the panel. */
  lemma ReadyClickGuard(players: seq<Player>, currentUserId: string, p: Player)
    requires p in players
    ensures ClickReadyButton(players, currentUserId, p) != players
            <==> ReadyButtonShown(p) && ReadyButtonEnabled(p, currentUserId)
  {
    var r := ClickReadyButton(players, currentUserId, p);
    if ReadyButtonShown(p) && ReadyButtonEnabled(p, currentUserId) {
      var k :| 0 <= k < |players| && players[k] == p;
      assert r[k].isReady != players[k].isReady;
    }
  }

  /** `handleKickPlayer`: only the host with a handler kicks, and never
      the current user. */
  function HandleKickPlayer(players: seq<Player>, currentUserId: string, isHost: bool, hasKickHandler: bool,
                            playerId: string): (r: seq<Player>)
    ensures !(isHost && hasKickHandler && playerId != currentUserId) ==> r == players
    ensures forall p :: p in r <==> p in players && (p.id != playerId || !(isHost && hasKickHandler && playerId != currentUserId))
    ensures forall p :: p in players && p.id == currentUserId ==> p in r
  {
    if isHost && hasKickHandler && playerId != currentUserId then KickPlayer(players, playerId) else players
  }

  /** Clicking the kick button of a listed player removes that player
      exactly when the button is shown. */
  lemma KickGuardMatchesButton(players: seq<Player>, currentUserId: string, isHost: bool, hasKickHandler: bool,
                               p: Player)
    requires p in players
    ensures (p !in HandleKickPlayer(players, currentUserId, isHost, hasKickHandler, p.id))
            == KickButtonShown(p, currentUserId, isHost, hasKickHandler)
  {
  }

  /** The online count shown in the header and in the statistics. */
  function OnlineStat(players: seq<Player>): (n: nat)
    ensures n == OnlinePlayerCount(players)
  {
    |Filter(IsOnline, players)|
  }

  /** The ready count of the statistics: online players who are ready. */
  function ReadyStat(players: seq<Player>): (n: nat)
    ensures n == CountWhere(IsOnlineAndReady, players)
  {
    FilterCount(IsOnlineAndReady, players);
    |Filter(IsOnlineAndReady, players)|
  }

  /** The statistics never contradict each other: no more ready than
      online, no more online than listed, and the panel's ready count is at
      most `getReadyPlayerCount`, which also counts offline players. */
  lemma StatsOrdered(players: seq<Player>)
    ensures ReadyStat(players) <= OnlineStat(players) <= |players|
    ensures ReadyStat(players) <= ReadyPlayerCount(players)
  {
    FilterMono(IsOnlineAndReady, IsOnline, players);
    FilterMono(IsOnlineAndReady, IsReady, players);
  }

  /** With unique ids, an online current user clicking their own ready
      button moves the ready statistic by exactly one. */
  lemma OwnToggleMovesReadyStat(players: seq<Player>, currentUserId: string, k: int)
    requires 0 <= k < |players| && players[k].id == currentUserId && players[k].isOnline
    requires forall i :: 0 <= i < |players| && i != k ==> players[i].id != currentUserId
    ensures ReadyStat(HandleReadyToggle(players, currentUserId, currentUserId))
              == ReadyStat(players) + (if players[k].isReady then -1 else 1)
  {
    UpdatePlayerReadyCount(players, k);
  }
}
