/** The player record the server replaces wholesale on every tick. */
module Players {
  import opened Wrappers
  import opened Geometry
  import opened Progression

  datatype PlayState = Game | Lose | Eliminated

  /** The type tag of a piece, as the piece generator names it. */
  type PieceKind = string

  /** What the piece generator hands out: the blocks of a piece and its type. */
  datatype Piece = Piece(blocks: seq<Block>, kind: PieceKind)

  /** The transient fields a clearing tick attaches for the broadcaster. */
  datatype ClearReport = ClearReport(
    clearedLineNumbers: seq<int>,
    attackPower: int,
    linesCleared: nat,
    gainedExp: int,
    luckyEvent: Option<LuckyKind>,
    leveledUp: bool)

  /** One player's state. `body`/`kind` are the falling piece (block 0 is the pivot),
      `preBody`/`preKind` the next piece, `ground` the settled blocks. `report` is `None`
      until the first clear and afterwards holds the last clear's transient fields. */
  datatype Player = Player(
    userName: string,
    who: string,
    state: PlayState,
    body: seq<Block>,
    kind: PieceKind,
    preBody: seq<Block>,
    preKind: PieceKind,
    ground: seq<Block>,
    actionTime: int,
    level: nat,
    exp: int,
    expToNextLevel: int,
    score: int,
    combo: int,
    lastClearTime: Option<int>,
    report: Option<ClearReport>)

  /** The falling piece is on the board, off the settled blocks, and has no cell twice. */
  predicate PieceLegal(cfg: Config, p: Player) {
    !Collides(cfg, p.body, p.ground) && Distinct(p.body)
  }
}
