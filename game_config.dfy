/** The `gameConfig` store slice: game mode, timer phase, trash can, and the multiplayer room. */
module GameConfig {
  import opened Js
  import RoomServer

  /** The slice's state; each method is one of its reducers. */
  class GameConfigSlice {
    var trashCanOpen: bool
    var timerStatus: string
    var score: int
    var gameMode: string
    var roomId: Option<string>
    var playersInfo: seq<RoomServer.Player>
    var hostId: Option<string>
    var opponentScore: int
    var opponentName: string

    /** Back in single-player mode with no room, no opponent, and the mode-selection screen showing. */
    predicate IsReset()
      reads this
    {
      gameMode == "single" && roomId == None && playersInfo == [] && hostId == None &&
      opponentScore == 0 && opponentName == "" && timerStatus == "modeSelection"
    }

    /** The multiplayer room is known. */
    predicate InRoom()
      reads this
    {
      Truthy(roomId)
    }

    /** The initial state. */
    constructor()
      ensures !trashCanOpen && timerStatus == "initial" && score == 0 && gameMode == "single"
      ensures roomId == None && playersInfo == [] && hostId == None
      ensures opponentScore == 0 && opponentName == ""
      ensures !InRoom()
    {
      trashCanOpen := false;
      timerStatus := "initial";
      score := 0;
      gameMode := "single";
      roomId := None;
      playersInfo := [];
      hostId := None;
      opponentScore := 0;
      opponentName := "";
    }

    /** `handleTrashCan({ value })`. */
    method HandleTrashCan(value: bool)
      modifies this
      ensures trashCanOpen == value
      ensures timerStatus == old(timerStatus) && score == old(score) && gameMode == old(gameMode)
      ensures roomId == old(roomId) && playersInfo == old(playersInfo) && hostId == old(hostId)
      ensures opponentScore == old(opponentScore) && opponentName == old(opponentName)
    {
      trashCanOpen := value;
    }

    /** `handleTimerStatus({ status, roomId })`: a falsy `roomId` keeps the stored one. */
    method HandleTimerStatus(status: string, newRoomId: Option<string>)
      modifies this
      ensures timerStatus == status
      ensures roomId == (if Truthy(newRoomId) then newRoomId else old(roomId))
      ensures old(InRoom()) ==> InRoom()
      ensures trashCanOpen == old(trashCanOpen) && score == old(score) && gameMode == old(gameMode)
      ensures playersInfo == old(playersInfo) && hostId == old(hostId)
      ensures opponentScore == old(opponentScore) && opponentName == old(opponentName)
    {
      timerStatus := status;
      if Truthy(newRoomId) {
        roomId := newRoomId;
      }
    }

    /** `setGameMode({ mode })`. */
    method SetGameMode(mode: string)
      modifies this
      ensures gameMode == mode
      ensures trashCanOpen == old(trashCanOpen) && timerStatus == old(timerStatus) && score == old(score)
      ensures roomId == old(roomId) && playersInfo == old(playersInfo) && hostId == old(hostId)
      ensures opponentScore == old(opponentScore) && opponentName == old(opponentName)
    {
      gameMode := mode;
    }

    /**
     * `setRoomInfo({ roomId, playersInfo, hostId })`: each field is taken
     * only when truthy, so the method never clears what is stored. An array,
     * even an empty one, is truthy, so any present `playersInfo` is taken.
     */
    method SetRoomInfo(newRoomId: Option<string>, newPlayers: Option<seq<RoomServer.Player>>, newHostId: Option<string>)
      modifies this
      ensures roomId == (if Truthy(newRoomId) then newRoomId else old(roomId))
      ensures playersInfo == (if newPlayers.Some? then newPlayers.value else old(playersInfo))
      ensures hostId == (if Truthy(newHostId) then newHostId else old(hostId))
      ensures old(InRoom()) ==> InRoom()
      ensures old(Truthy(hostId)) ==> Truthy(hostId)
      ensures trashCanOpen == old(trashCanOpen) && timerStatus == old(timerStatus) && score == old(score)
      ensures gameMode == old(gameMode) && opponentScore == old(opponentScore) && opponentName == old(opponentName)
    {
      if Truthy(newRoomId) {
        roomId := newRoomId;
      }
      if newPlayers.Some? {
        playersInfo := newPlayers.value;
      }
      if Truthy(newHostId) {
        hostId := newHostId;
      }
    }

    /** `setOpponentScore({ score, playerName })`: the score always, the name only when truthy. */
    method SetOpponentScore(newScore: int, playerName: Option<string>)
      modifies this
      ensures opponentScore == newScore
      ensures opponentName == (if Truthy(playerName) then playerName.value else old(opponentName))
      ensures trashCanOpen == old(trashCanOpen) && timerStatus == old(timerStatus) && score == old(score)
      ensures gameMode == old(gameMode) && roomId == old(roomId) && playersInfo == old(playersInfo) && hostId == old(hostId)
    {
      opponentScore := newScore;
      if Truthy(playerName) {
        opponentName := playerName.value;
      }
    }

    /**
     * `resetGameConfig`: leave the room and return to mode selection. The
     * trash can and the player's own score are kept, and resetting twice is
     * the same as resetting once.
     */
    method ResetGameConfig()
      modifies this
      ensures IsReset() && !InRoom()
      ensures trashCanOpen == old(trashCanOpen) && score == old(score)
      ensures old(IsReset()) ==> unchanged(this)
    {
      gameMode := "single";
      roomId := None;
      playersInfo := [];
      hostId := None;
      opponentScore := 0;
      opponentName := "";
      timerStatus := "modeSelection";
    }
  }
}
