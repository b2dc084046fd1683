// Entities of the game client: characters, messages and the state update the
// Dungeon Master attaches to a reply (src/types/index.ts).

module Types {

  datatype Option<+T> = None | Some(value: T) {
    function GetOr(default: T): T {
      match this
      case Some(v) => v
      case None => default
    }
  }

  /** Success, or the exception the source would throw. */
  datatype Result<+T, +E> = Success(value: T) | Failure(error: E)

  datatype StatName = STR | DEX | CON | INT | WIS | CHA

  /** The six ability scores; `Object.values` lists them in declaration order. */
  datatype Stats = Stats(str: int, dex: int, con: int, intel: int, wis: int, cha: int) {

    function Get(s: StatName): int {
      match s
      case STR => str
      case DEX => dex
      case CON => con
      case INT => intel
      case WIS => wis
      case CHA => cha
    }

    /** `{ ...prev, [stat]: v }` */
    function With(s: StatName, v: int): (r: Stats)
      ensures r.Get(s) == v
      ensures forall t :: t != s ==> r.Get(t) == Get(t)
    {
      match s
      case STR => this.(str := v)
      case DEX => this.(dex := v)
      case CON => this.(con := v)
      case INT => this.(intel := v)
      case WIS => this.(wis := v)
      case CHA => this.(cha := v)
    }

    /** The scores in `Object.values` order. */
    function Values(): (r: seq<int>)
      ensures |r| == 6
    {
      [str, dex, con, intel, wis, cha]
    }
  }

  datatype ClassType = Fighter | Wizard | Rogue | Cleric | Paladin | Ranger

  function ClassName(c: ClassType): string {
    match c
    case Fighter => "Fighter"
    case Wizard => "Wizard"
    case Rogue => "Rogue"
    case Cleric => "Cleric"
    case Paladin => "Paladin"
    case Ranger => "Ranger"
  }

  datatype Character = Character(
    id: string,
    name: string,
    ownerEmail: string,
    classType: ClassType,
    level: int,
    hp: int,
    maxHp: int,
    stats: Stats,
    bio: string,
    avatarUrl: Option<string>,
    inventory: seq<string>,
    isReady: bool,
    pendingAction: Option<string>)

  datatype Sender = Dm | Player | System

  /** A chat entry; `dmState` is the only metadata the modelled code reads or writes. */
  datatype Message = Message(id: string, sender: Sender, text: string, timestamp: int, dmState: Option<DmState>)

  /**
   * The state update parsed from a reply. Object keys are kept in `Object.keys`
   * order as a sequence of pairs; an absent record reads as the empty sequence.
   */
  datatype DmState = DmState(
    hpUpdates: seq<(string, int)>,
    inventoryUpdates: seq<(string, seq<string>)>,
    location: Option<string>,
    suggestedActions: Option<seq<string>>,
    isCombat: Option<bool>)

  /** One `saveGame(lobbyId, party, messages)` call, as issued by a client. */
  datatype SaveCall = SaveCall(lobbyId: string, party: seq<Character>, messages: seq<Message>)
}
