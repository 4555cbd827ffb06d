/**
 * The in-memory half of game_states.py: the record a game is saved as, the structural
 * check a loaded record must pass, the way a record is turned back into a game, the
 * `.json` file-name suffix rule, and the settings store with its defaults. Reading and
 * writing files is not part of this model: a loaded file is a `Json` value handed in.
 */
module GameStates {
  import opened Common
  import opened Grid
  import opened GameRules
  import opened JsonValues

  // ---------------------------------------------------------------------------------
  // File names

  /** Suffix rule of `save_game`, `load_game` and `delete_save_file`. */
  function WithJsonSuffix(name: string): (r: string)
    ensures EndsWith(r, ".json")
    ensures name <= r && (r == name || r == name + ".json")
    ensures EndsWith(name, ".json") ==> r == name
  {
    if EndsWith(name, ".json") then name else name + ".json"
  }

  /** Normalising a name twice is normalising it once. */
  lemma WithJsonSuffixIdempotent(name: string)
    ensures WithJsonSuffix(WithJsonSuffix(name)) == WithJsonSuffix(name)
  {
  }

  // ---------------------------------------------------------------------------------
  // Enum values

  /** `Player(i)` for an integer: `None` where the enum lookup raises `ValueError`. */
  function PlayerFromValue(i: int): (p: Option<Player>)
    ensures p.Some? <==> 0 <= i <= 5
    ensures p.Some? ==> PlayerValue(p.value) == i
  {
    if i == 0 then Some(Empty)
    else if i == 1 then Some(Black)
    else if i == 2 then Some(White)
    else if i == 3 then Some(Red)
    else if i == 4 then Some(Blue)
    else if i == 5 then Some(Green)
    else None
  }

  /**
   * `Player(value)` for a JSON value. The lookup compares by equality, and Python's
   * `True == 1` and `False == 0`, so booleans name Black and Empty.
   */
  function PlayerOf(j: Json): Option<Player> {
    match j
    case JInt(i) => PlayerFromValue(i)
    case JBool(b) => Some(if b then Black else Empty)
    case _ => None
  }

  lemma PlayerOfValue(p: Player)
    ensures PlayerOf(JInt(PlayerValue(p))) == Some(p)
  {
  }

  /** The enum values of `GameState`. */
  function StatusValue(s: Status): string {
    match s
    case Playing => "playing"
    case BlackWins => "black_wins"
    case WhiteWins => "white_wins"
    case Draw => "draw"
  }

  /** `GameState(value)`: `None` where the lookup raises. */
  function StatusOf(j: Json): (s: Option<Status>)
    ensures s.Some? ==> j == JStr(StatusValue(s.value))
    ensures forall t :: j == JStr(StatusValue(t)) ==> s == Some(t)
  {
    if j == JStr("playing") then Some(Playing)
    else if j == JStr("black_wins") then Some(BlackWins)
    else if j == JStr("white_wins") then Some(WhiteWins)
    else if j == JStr("draw") then Some(Draw)
    else None
  }

  // ---------------------------------------------------------------------------------
  // Serialising

  function SerializeRow(row: seq<Player>): Json {
    JArr(seq(|row|, j requires 0 <= j < |row| => JInt(PlayerValue(row[j]))))
  }

  function SerializeMove(m: Move): Json {
    JObj(map["row" := JInt(m.row), "col" := JInt(m.col), "player" := JInt(PlayerValue(m.player))])
  }

  /** `_serialize_game`: enum values for cells, players and the state, and one record per move. */
  function SerializeGame(g: Game): Json {
    JObj(map[
      "board" := JArr(seq(|g.board|, i requires 0 <= i < |g.board| => SerializeRow(g.board[i]))),
      "current_player" := JInt(PlayerValue(g.currentPlayer)),
      "game_state" := JStr(StatusValue(g.state)),
      "winner" := if g.winner.Some? then JInt(PlayerValue(g.winner.value)) else JNull,
      "move_history" := JArr(seq(|g.history|, k requires 0 <= k < |g.history| => SerializeMove(g.history[k])))])
  }

  // ---------------------------------------------------------------------------------
  // Deserialising

  /** `board[r][c]` exists and names a player, so the assignment in the board loop does not raise. */
  predicate CellParses(board: Json, r: int, c: int) {
    board.JArr? && 0 <= r < |board.items| &&
    board.items[r].JArr? && 0 <= c < |board.items[r].items| &&
    PlayerOf(board.items[r].items[c]).Some?
  }

  function CellAt(board: Json, r: int, c: int): Player
    requires CellParses(board, r, c)
  {
    PlayerOf(board.items[r].items[c]).value
  }

  /** Every cell of the 15 x 15 board loop parses; longer lists are read only up to 15. */
  predicate BoardParses(board: Json) {
    forall r, c :: 0 <= r < BoardSize && 0 <= c < BoardSize ==> CellParses(board, r, c)
  }

  function ParseBoard(board: Json): (b: Board)
    requires BoardParses(board)
    ensures IsSquare(b, BoardSize)
    ensures forall r, c :: 0 <= r < BoardSize && 0 <= c < BoardSize ==> b[r][c] == CellAt(board, r, c)
  {
    seq(BoardSize, r requires 0 <= r < BoardSize =>
      seq(BoardSize, c requires 0 <= c < BoardSize => CellAt(board, r, c)))
  }

  /** A move record: an object with integer `row` and `col` and a player value. */
  function MoveOf(j: Json): Option<Move> {
    if j.JObj? && "row" in j.fields && "col" in j.fields && "player" in j.fields &&
       j.fields["row"].JInt? && j.fields["col"].JInt? && PlayerOf(j.fields["player"]).Some?
    then Some(Move(j.fields["row"].i, j.fields["col"].i, PlayerOf(j.fields["player"]).value))
    else None
  }

  /**
   * The values `for move_data in history` visits. A list gives its items; an empty dict or
   * string gives nothing. A non-empty dict or string yields strings, and indexing a string
   * by `"row"` raises, so those are refused outright; anything else is not iterable.
   */
  function HistoryItems(j: Json): Option<seq<Json>> {
    match j
    case JArr(items) => Some(items)
    case JObj(fields) => if fields == map[] then Some([]) else None
    case JStr(s) => if s == "" then Some([]) else None
    case _ => None
  }

  predicate MovesParse(items: seq<Json>) {
    forall k :: 0 <= k < |items| ==> MoveOf(items[k]).Some?
  }

  function ParseMoves(items: seq<Json>): (h: seq<Move>)
    requires MovesParse(items)
    ensures |h| == |items| && forall k :: 0 <= k < |items| ==> MoveOf(items[k]) == Some(h[k])
  {
    seq(|items|, k requires 0 <= k < |items| => MoveOf(items[k]).value)
  }

  /** The `winner` entry: a false value means no winner, a true one must name a player. */
  function WinnerOf(j: Json): Option<Option<Player>> {
    if !Truthy(j) then Some(None)
    else if PlayerOf(j).Some? then Some(Some(PlayerOf(j).value))
    else None
  }

  /**
   * `_deserialize_game`: a fresh two-player game filled from the record, or `None` where
   * any lookup or enum conversion raises.
   */
  function DeserializedGame(data: Json): Option<Game> {
    if !data.JObj? then None
    else
      var m := data.fields;
      if "board" !in m || !BoardParses(m["board"]) then None
      else if "current_player" !in m || PlayerOf(m["current_player"]).None? then None
      else if "game_state" !in m || StatusOf(m["game_state"]).None? then None
      else if "winner" !in m || WinnerOf(m["winner"]).None? then None
      else if "move_history" !in m || HistoryItems(m["move_history"]).None? then None
      else if !MovesParse(HistoryItems(m["move_history"]).value) then None
      else
        Some(Game(2, AllPlayers[..2], 0, ParseBoard(m["board"]), PlayerOf(m["current_player"]).value,
          ParseMoves(HistoryItems(m["move_history"]).value), StatusOf(m["game_state"]).value,
          WinnerOf(m["winner"]).value))
  }

  /** `_deserialize_game`, filling the board cell by cell and appending the moves one by one. */
  method DeserializeGame(data: Json) returns (r: Option<Game>)
    ensures r == DeserializedGame(data)
  {
    if !data.JObj? || "board" !in data.fields {
      return None;
    }
    var boardData := data.fields["board"];
    var board := EmptyBoard();
    for row := 0 to BoardSize
      invariant IsSquare(board, BoardSize)
      invariant forall i, j :: 0 <= i < row && 0 <= j < BoardSize ==>
        CellParses(boardData, i, j) && board[i][j] == CellAt(boardData, i, j)
    {
      for col := 0 to BoardSize
        invariant IsSquare(board, BoardSize)
        invariant forall i, j :: 0 <= i < row && 0 <= j < BoardSize ==>
          CellParses(boardData, i, j) && board[i][j] == CellAt(boardData, i, j)
        invariant forall j :: 0 <= j < col ==> CellParses(boardData, row, j) && board[row][j] == CellAt(boardData, row, j)
      {
        if !CellParses(boardData, row, col) {
          return None;
        }
        board := board[row := board[row][col := CellAt(boardData, row, col)]];
      }
    }
    SameCells(board, ParseBoard(boardData), BoardSize);
    var m := data.fields;
    if "current_player" !in m || PlayerOf(m["current_player"]).None? {
      return None;
    }
    if "game_state" !in m || StatusOf(m["game_state"]).None? {
      return None;
    }
    if "winner" !in m || WinnerOf(m["winner"]).None? {
      return None;
    }
    if "move_history" !in m || HistoryItems(m["move_history"]).None? {
      return None;
    }
    var items := HistoryItems(m["move_history"]).value;
    var history: seq<Move> := [];
    for k := 0 to |items|
      invariant |history| == k
      invariant forall t :: 0 <= t < k ==> MoveOf(items[t]) == Some(history[t])
    {
      var move := MoveOf(items[k]);
      if move.None? {
        return None;
      }
      history := history + [move.value];
    }
    assert history == ParseMoves(items);
    r := Some(Game(2, AllPlayers[..2], 0, board, PlayerOf(m["current_player"]).value, history,
      StatusOf(m["game_state"]).value, WinnerOf(m["winner"]).value));
  }

  /**
   * Reading a game back from its record gives what `copy` gives: a fresh two-player game
   * (player index 0) with the board, current player, state, winner and history of the
   * original. A winner of `Empty` is the one value that does not survive.
   */
  lemma {:induction false} DeserializeSerialize(g: Game)
    requires IsSquare(g.board, BoardSize) && g.winner != Some(Empty)
    ensures DeserializedGame(SerializeGame(g)) == Some(CopyGame(g))
  {
    var data := SerializeGame(g);
    var m := data.fields;
    var board := m["board"];
    forall r, c | 0 <= r < BoardSize && 0 <= c < BoardSize
      ensures CellParses(board, r, c) && CellAt(board, r, c) == g.board[r][c]
    {
      PlayerOfValue(g.board[r][c]);
    }
    SameCells(ParseBoard(board), g.board, BoardSize);
    PlayerOfValue(g.currentPlayer);
    if g.winner.Some? {
      PlayerOfValue(g.winner.value);
    }
    var items := HistoryItems(m["move_history"]).value;
    forall k | 0 <= k < |items|
      ensures MoveOf(items[k]) == Some(g.history[k])
    {
      PlayerOfValue(g.history[k].player);
    }
    assert ParseMoves(items) == g.history;
  }

  /** A recorded winner of `Empty` is written as 0, which reads back as no winner. */
  lemma EmptyWinnerIsLost(g: Game)
    requires IsSquare(g.board, BoardSize) && g.winner == Some(Empty)
    ensures DeserializedGame(SerializeGame(g)).Some?
    ensures DeserializedGame(SerializeGame(g)).value.winner == None
  {
    DeserializeSerialize(g.(winner := None));
  }

  // ---------------------------------------------------------------------------------
  // Save records

  const SaveVersion := "1.0"

  /** The record `save_game` writes, at `timestamp`, with `additional_data or {}`. */
  function SaveData(g: Game, timestamp: string, additional: Json): Json {
    JObj(map[
      "version" := JStr(SaveVersion),
      "timestamp" := JStr(timestamp),
      "game_state" := SerializeGame(g),
      "additional_data" := if Truthy(additional) then additional else JObj(map[])])
  }

  /** A cell `_validate_save_data` accepts: equal to 0, 1 or 2 (booleans compare equal to 0 and 1). */
  predicate ValidCell(j: Json) {
    j == JInt(0) || j == JInt(1) || j == JInt(2) || j.JBool?
  }

  predicate ValidRow(row: Json) {
    row.JArr? && |row.items| == BoardSize && forall c :: 0 <= c < BoardSize ==> ValidCell(row.items[c])
  }

  predicate ValidBoard(board: Json) {
    board.JArr? && |board.items| == BoardSize && forall r :: 0 <= r < BoardSize ==> ValidRow(board.items[r])
  }

  /**
   * `_validate_save_data`: the required keys, a 15 x 15 board and cells 0, 1 or 2. A value
   * of another shape fails one of the tests or raises, and both give `false`.
   */
  predicate ValidSaveData(data: Json) {
    data.JObj? &&
    "version" in data.fields && "timestamp" in data.fields && "game_state" in data.fields &&
    var gs := data.fields["game_state"];
    gs.JObj? &&
    "board" in gs.fields && "current_player" in gs.fields && "game_state" in gs.fields &&
    "move_history" in gs.fields &&
    ValidBoard(gs.fields["board"])
  }

  const SaveKeys: seq<string> := ["version", "timestamp", "game_state"]
  const GameKeys: seq<string> := ["board", "current_player", "game_state", "move_history"]

  /** `_validate_save_data`, with its early returns. */
  method ValidateSaveData(data: Json) returns (ok: bool)
    ensures ok == ValidSaveData(data)
  {
    if !data.JObj? {
      return false;
    }
    for k := 0 to |SaveKeys|
      invariant forall t :: 0 <= t < k ==> SaveKeys[t] in data.fields
    {
      if SaveKeys[k] !in data.fields {
        return false;
      }
    }
    assert SaveKeys[2] in data.fields;
    var gs := data.fields["game_state"];
    if !gs.JObj? {
      return false;
    }
    for k := 0 to |GameKeys|
      invariant forall t :: 0 <= t < k ==> GameKeys[t] in gs.fields
    {
      if GameKeys[k] !in gs.fields {
        return false;
      }
    }
    assert GameKeys[0] in gs.fields && GameKeys[1] in gs.fields && GameKeys[2] in gs.fields && GameKeys[3] in gs.fields;
    assert SaveKeys[0] in data.fields && SaveKeys[1] in data.fields;
    var board := gs.fields["board"];
    if !board.JArr? || |board.items| != BoardSize {
      return false;
    }
    for r := 0 to BoardSize
      invariant forall i :: 0 <= i < r ==> board.items[i].JArr? && |board.items[i].items| == BoardSize
    {
      if !board.items[r].JArr? || |board.items[r].items| != BoardSize {
        return false;
      }
    }
    for r := 0 to BoardSize
      invariant forall i :: 0 <= i < r ==> ValidRow(board.items[i])
    {
      for c := 0 to BoardSize
        invariant forall j :: 0 <= j < c ==> ValidCell(board.items[r].items[j])
      {
        if !ValidCell(board.items[r].items[c]) {
          return false;
        }
      }
    }
    return true;
  }

  /** The result of `load_game`, without the file read. */
  datatype Loaded = Loaded(game: Game, additional: Json, timestamp: Json, version: Json)

  /** `load_game` on a parsed file: validate, then deserialise. */
  function LoadSaveData(data: Json): Option<Loaded> {
    if !ValidSaveData(data) then None
    else
      match DeserializedGame(data.fields["game_state"])
      case None => None
      case Some(g) =>
        Some(Loaded(g, Get(data.fields, "additional_data", JObj(map[])), data.fields["timestamp"],
          data.fields["version"]))
  }

  predicate TwoPlayerBoard(b: Board)
    requires IsSquare(b, BoardSize)
  {
    forall r, c :: 0 <= r < BoardSize && 0 <= c < BoardSize ==> b[r][c] in {Empty, Black, White}
  }

  /** A saved record passes validation exactly when its board holds only Empty, Black and White. */
  lemma SaveDataValidIff(g: Game, timestamp: string, additional: Json)
    requires IsSquare(g.board, BoardSize)
    ensures ValidSaveData(SaveData(g, timestamp, additional)) <==> TwoPlayerBoard(g.board)
  {
    var board := SaveData(g, timestamp, additional).fields["game_state"].fields["board"];
    if !TwoPlayerBoard(g.board) {
      var r, c :| 0 <= r < BoardSize && 0 <= c < BoardSize && g.board[r][c] !in {Empty, Black, White};
      assert !ValidCell(board.items[r].items[c]);
    }
  }

  /**
   * Saving and loading a game whose stones are Black and White and whose winner is not
   * `Empty` gives back the game as `copy` would, the extra data or `{}`, and the stamps.
   */
  lemma SaveLoadRoundTrip(g: Game, timestamp: string, additional: Json)
    requires IsSquare(g.board, BoardSize) && TwoPlayerBoard(g.board) && g.winner != Some(Empty)
    ensures LoadSaveData(SaveData(g, timestamp, additional)) ==
      Some(Loaded(CopyGame(g), if Truthy(additional) then additional else JObj(map[]), JStr(timestamp),
        JStr(SaveVersion)))
  {
    SaveDataValidIff(g, timestamp, additional);
    DeserializeSerialize(g);
  }

  /** A saved game with a Red, Blue or Green stone on the board cannot be loaded back. */
  lemma SavedMultiColourGameRejected(g: Game, timestamp: string, additional: Json)
    requires IsSquare(g.board, BoardSize) && !TwoPlayerBoard(g.board)
    ensures LoadSaveData(SaveData(g, timestamp, additional)) == None
  {
    SaveDataValidIff(g, timestamp, additional);
  }

  /** Validation does not look at `winner`: a record without it passes and still loads as nothing. */
  lemma ValidRecordWithoutWinnerNotLoaded(g: Game, timestamp: string, additional: Json)
    requires IsSquare(g.board, BoardSize) && TwoPlayerBoard(g.board)
    ensures var data := SaveData(g, timestamp, additional);
      var gs := data.fields["game_state"].fields - {"winner"};
      var data' := JObj(data.fields["game_state" := JObj(gs)]);
      ValidSaveData(data') && LoadSaveData(data') == None
  {
    SaveDataValidIff(g, timestamp, additional);
  }

  // ---------------------------------------------------------------------------------
  // Settings

  /** `GameSettings.default_settings`. */
  const DefaultSettings: map<string, Json> := map[
    "ai_difficulty" := JStr("medium"),
    "sound_enabled" := JBool(true),
    "music_enabled" := JBool(true),
    "show_coordinates" := JBool(false),
    "highlight_last_move" := JBool(true),
    "auto_save" := JBool(true),
    "network_port" := JInt(12345),
    "player_name" := JStr("Player"),
    "window_width" := JInt(1000),
    "window_height" := JInt(700)]

  /**
   * `load_settings`: the defaults updated by the loaded object, or the defaults alone when
   * there is no file or it cannot be read.
   */
  function LoadSettings(loaded: Option<map<string, Json>>): (s: map<string, Json>)
    ensures s.Keys == DefaultSettings.Keys + (if loaded.Some? then loaded.value.Keys else {})
    ensures loaded.Some? ==> forall k :: k in loaded.value ==> s[k] == loaded.value[k]
    ensures forall k :: k in DefaultSettings && (loaded.None? || k !in loaded.value) ==> s[k] == DefaultSettings[k]
  {
    if loaded.Some? then DefaultSettings + loaded.value else DefaultSettings
  }

  class GameSettings {
    var settings: map<string, Json>

    /** `GameSettings()`, given what the settings file held, if anything. */
    constructor(loaded: Option<map<string, Json>>)
      ensures settings == LoadSettings(loaded)
    {
      settings := LoadSettings(loaded);
    }

    /** `get(key, default)`. */
    function Get(key: string, default: Json): (v: Json)
      reads this
      ensures key in settings ==> v == settings[key]
      ensures key !in settings ==> v == default
    {
      JsonValues.Get(settings, key, default)
    }

    /** `set(key, value)`: afterwards `get(key)` answers `value`, and no other key changes. */
    method Set(key: string, value: Json)
      modifies this
      ensures settings == old(settings)[key := value]
      ensures forall d :: Get(key, d) == value
      ensures forall k, d :: k != key ==> Get(k, d) == old(Get(k, d))
    {
      settings := settings[key := value];
    }

    /** `reset_to_defaults`. */
    method ResetToDefaults()
      modifies this
      ensures settings == DefaultSettings
    {
      settings := DefaultSettings;
    }
  }
}
