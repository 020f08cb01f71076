/** The session state machine of src/hooks/useGameController.ts: the difficulty
    store, the engine, the timer value and the game state, with the effects
    that run when the settings or the number of opened fields change. */
module Controller {
  import opened Board
  import opened Presets
  import opened MapBoard
  import opened Engine

  /** The win rule of the win effect: the opened fields and the mines fill the board. */
  function WinRule(openedCount: int, s: Settings): bool {
    openedCount + s.bombsCount == s.xFieldsCount * s.yFieldsCount
  }

  /** The win effect also runs in the commit of a settings change, and there it
      reads the counter of the render before `prepareGame` reset it: 88 fields
      opened on Intermediate, which has room for 216 safe ones, fill Beginner's
      16 x 8 board once its 40 mines are added. */
  lemma LevelChangeCanEndGame()
    ensures var before, after := GetSettingsByLevel(Intermediate), GetSettingsByLevel(Beginner);
      88 + before.bombsCount <= before.xFieldsCount * before.yFieldsCount &&
      !WinRule(88, before) && WinRule(88, after)
  {
  }

  /** Read after the reset, the counter is 0 and no preset's win rule holds, so
      a level change would always leave the game Idle. */
  lemma ResetNeverWins(level: SettingsLevel)
    ensures !WinRule(0, GetSettingsByLevel(level))
  {
  }

  class GameController {
    const store: SettingsStore
    const game: Game
    var timer: int
    var gameState: GameState

    /** The engine is built from the store's settings (`useGame(settings)`). */
    ghost predicate Valid()
      reads this, store, game
    {
      game.Valid() && game.settings == store.settings
    }

    /** Whether the win rule holds for the current engine state. */
    function Won(): bool
      reads this, game, store
    {
      WinRule(game.fieldsOpened, store.settings)
    }

    /** Mounting: Beginner settings, an engine for them, timer 0, Idle, and the
        mount effect `prepareGame()`. */
    constructor()
      ensures Valid() && fresh(store) && fresh(game)
      ensures store.settings == GetSettingsByLevel(Beginner)
      ensures IsEmptyBoard(game.W(), game.H(), game.fields) && game.fieldsOpened == 0 && game.Counted()
      ensures timer == 0 && gameState == Idle
    {
      var s := new SettingsStore(Beginner);
      var g := new Game(s.settings);
      store := s;
      game := g;
      timer := 0;
      gameState := Idle;
      new;
      g.InitFields();
    }

    /** `prepareGame`: `initFields()`, timer 0, Idle. */
    method PrepareGame()
      requires game.settings == store.settings
      modifies this, game
      ensures Valid() && game.settings == old(game.settings)
      ensures IsEmptyBoard(game.W(), game.H(), game.fields) && game.fieldsOpened == 0 && game.Counted()
      ensures timer == 0 && gameState == Idle
    {
      game.InitFields();
      timer := 0;
      gameState := Idle;
    }

    /** `continuePlaying`: Playing, whatever the state was. */
    method ContinuePlaying()
      modifies this
      ensures gameState == Playing && timer == old(timer)
    {
      gameState := Playing;
    }

    /** `pause`: Pause, whatever the state was. */
    method Pause()
      modifies this
      ensures gameState == GameState.Pause && timer == old(timer)
    {
      gameState := GameState.Pause;
    }

    /** The win effect, run when `fieldsOpened` changes: GameOver once the opened
        fields and the mines fill the board. */
    method CheckWin()
      modifies this
      ensures gameState == if Won() then GameOver else old(gameState)
      ensures timer == old(timer)
    {
      if WinRule(game.fieldsOpened, store.settings) {
        gameState := GameOver;
      }
    }

    /** `onFieldOpen(clickedField)`: a mine ends the game; otherwise the first
        open starts it; the field always goes to `openField`, whose effect on
        the board and the counter the ghost results witness, and the win effect
        follows when the number of opened fields changed. */
    method OnFieldOpen(clicked: Field, draws: seq<int>)
      returns (ghost stop: nat, ghost used: nat, ghost board: FieldsMap, ghost expanded: set<Coords>,
               ghost pushes: seq<Coords>)
      requires Valid()
      modifies this, game
      ensures Valid() && store.settings == old(store.settings) && timer == old(timer)
      ensures game.OpenFieldEffect(clicked, draws, stop, used, board, expanded, pushes)
      ensures var handled := if clicked.hasBomb then GameOver
                             else if old(game.fieldsOpened) == 0 then Playing
                             else old(gameState);
        gameState == if game.fieldsOpened != old(game.fieldsOpened) && Won() then GameOver else handled
      ensures clicked.isOpened ==> game.fields == old(game.fields) && game.fieldsOpened == old(game.fieldsOpened)
      ensures (!clicked.hasBomb && clicked.coords in old(game.fields) && old(game.fields)[clicked.coords] == clicked &&
               old(game.Counted())) ==> game.Counted()
    {
      var before := game.fieldsOpened;
      if clicked.hasBomb {
        gameState := GameOver;
      } else if game.fieldsOpened == 0 {
        gameState := Playing;
      }
      stop, used, board, expanded, pushes := game.OpenField(clicked, draws);
      if game.fieldsOpened != before {
        CheckWin();
      }
    }

    /** `setSettingsByLevel(level)`: the store takes the preset; a preset
        different from the current one re-runs `prepareGame` through the
        settings effect, and then the win effect, whose dependencies include
        the settings, checks the new settings against the counter as it was
        before the reset: the game ends Idle, or GameOver when that stale
        counter fills the new board. The same preset leaves everything as it
        was. */
    method SetSettingsByLevel(level: SettingsLevel)
      requires Valid()
      modifies this, store, game
      ensures Valid() && store.settings == GetSettingsByLevel(level)
      ensures store.settings != old(store.settings) ==>
        IsEmptyBoard(game.W(), game.H(), game.fields) && game.fieldsOpened == 0 && timer == 0 &&
        gameState == if WinRule(old(game.fieldsOpened), store.settings) then GameOver else Idle
      ensures store.settings == old(store.settings) ==>
        game.fields == old(game.fields) && game.fieldsOpened == old(game.fieldsOpened) &&
        timer == old(timer) && gameState == old(gameState)
    {
      var previous := store.settings;
      var staleOpened := game.fieldsOpened;
      store.SetSettingsByLevel(level);
      if store.settings != previous {
        game.UseSettings(store.settings);
        PrepareGame();
        if WinRule(staleOpened, store.settings) {
          gameState := GameOver;
        }
      }
    }
  }
}
