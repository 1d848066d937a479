/**
 * The event vocabulary of a replay: command codes, game-mode codes, the payload
 * records the decoder produces, the exceptions the .NET code can raise, and the
 * dictionary-based deserialisers that fill the GameStart, Player and GameEnd
 * records from a decoded UBJSON object graph.
 *
 * Nullable fields (`int?`, `bool?`, reference types) are `Option`s. Integer fields
 * are typed by what the binary readers yield (a `uint` reader's result stays
 * unsigned); float fields keep their raw 32-bit IEEE pattern.
 */
module Types {
  import opened Wrappers
  import opened Bits

  // ----- command and game-mode codes -----

  datatype Command =
    | MessageSizes
    | GameStartCmd
    | PreFrameUpdateCmd
    | PostFrameUpdateCmd
    | GameEndCmd
    | ItemUpdateCmd
    | FrameBookendCmd

  /** The byte that introduces each event in the raw stream. */
  function Code(c: Command): byte {
    match c
    case MessageSizes => 0x35
    case GameStartCmd => 0x36
    case PreFrameUpdateCmd => 0x37
    case PostFrameUpdateCmd => 0x38
    case GameEndCmd => 0x39
    case ItemUpdateCmd => 0x3b
    case FrameBookendCmd => 0x3c
  }

  /** The command a byte names, if any: the cast `(Command)commandByte` for a named value. */
  function CommandOf(b: byte): (r: Option<Command>)
    ensures forall c: Command :: r == Some(c) <==> Code(c) == b
  {
    if b == 0x35 then Some(MessageSizes)
    else if b == 0x36 then Some(GameStartCmd)
    else if b == 0x37 then Some(PreFrameUpdateCmd)
    else if b == 0x38 then Some(PostFrameUpdateCmd)
    else if b == 0x39 then Some(GameEndCmd)
    else if b == 0x3b then Some(ItemUpdateCmd)
    else if b == 0x3c then Some(FrameBookendCmd)
    else None
  }

  /** The seven command codes are pairwise distinct. */
  lemma CodesDistinct(c: Command, d: Command)
    ensures Code(c) == Code(d) <==> c == d
  {
    assert CommandOf(Code(c)) == Some(c);
  }

  const GAME_MODE_VS: int := 0x02
  const GAME_MODE_ONLINE: int := 0x08

  // ----- payload records -----

  /** A 32-bit float, kept as its IEEE bit pattern. */
  datatype Float32 = Float32(bits: uint32)

  datatype PlayerType = PlayerType(
    playerIndex: int32,
    port: int32,
    characterId: Option<int32>,
    characterColor: Option<int32>,
    startStocks: Option<int32>,
    slotType: Option<int32>,        // the `Type` field: 3 marks an empty slot
    teamId: Option<int32>,
    controllerFix: Option<string>,
    nameTag: Option<string>)

  /** `new PlayerType()`. */
  const NEW_PLAYER: PlayerType := PlayerType(0, 0, None, None, None, None, None, None, None)

  datatype GameStartType = GameStartType(
    slpVersion: Option<string>,
    isTeams: Option<bool>,
    isPAL: Option<bool>,
    stageId: Option<int32>,
    players: seq<PlayerType>,
    scene: Option<int32>,
    gameMode: Option<int32>)

  /** `new GameStartType()`. */
  const NEW_GAME_START: GameStartType := GameStartType(None, None, None, None, [], None, None)

  datatype PreFrameUpdateType = PreFrameUpdateType(
    frame: Option<int32>,
    playerIndex: Option<int32>,
    isFollower: Option<bool>,
    seed: Option<uint32>,
    actionStateId: Option<int32>,
    positionX: Option<Float32>,
    positionY: Option<Float32>,
    facingDirection: Option<Float32>,
    joystickX: Option<Float32>,
    joystickY: Option<Float32>,
    cStickX: Option<Float32>,
    cStickY: Option<Float32>,
    trigger: Option<Float32>,
    buttons: Option<uint32>,
    physicalButtons: Option<int32>,
    physicalLTrigger: Option<Float32>,
    physicalRTrigger: Option<Float32>,
    percent: Option<Float32>)

  datatype SelfInducedSpeedsType = SelfInducedSpeedsType(
    airX: Option<Float32>,
    y: Option<Float32>,
    attackX: Option<Float32>,
    attackY: Option<Float32>,
    groundX: Option<Float32>)

  datatype PostFrameUpdateType = PostFrameUpdateType(
    frame: Option<int32>,
    playerIndex: Option<int32>,
    isFollower: Option<bool>,
    internalCharacterId: Option<int32>,
    actionStateId: Option<int32>,
    positionX: Option<Float32>,
    positionY: Option<Float32>,
    facingDirection: Option<Float32>,
    percent: Option<Float32>,
    shieldSize: Option<Float32>,
    lastAttackLanded: Option<int32>,
    currentComboCount: Option<int32>,
    lastHitBy: Option<int32>,
    stocksRemaining: Option<int32>,
    actionStateCounter: Option<Float32>,
    miscActionState: Option<Float32>,
    isAirborne: Option<bool>,
    lastGroundId: Option<int32>,
    jumpsRemaining: Option<int32>,
    lCancelStatus: Option<int32>,
    hurtboxCollisionState: Option<int32>,
    selfInducedSpeeds: SelfInducedSpeedsType)

  datatype ItemUpdateType = ItemUpdateType(
    frame: Option<int32>,
    typeId: Option<int32>,
    state: Option<int32>,
    facingDirection: Option<Float32>,
    velocityX: Option<Float32>,
    velocityY: Option<Float32>,
    positionX: Option<Float32>,
    positionY: Option<Float32>,
    damageTaken: Option<int32>,
    expirationTimer: Option<Float32>,
    spawnId: Option<uint32>,
    missileType: Option<int32>,
    turnipFace: Option<int32>,
    chargeShotLaunched: Option<int32>,
    chargePower: Option<int32>,
    owner: Option<int32>)

  datatype FrameBookendType = FrameBookendType(
    frame: Option<int32>,
    latestFinalizedFrame: Option<int32>)

  datatype GameEndType = GameEndType(
    gameEndMethod: Option<int32>,
    lrasInitiatorIndex: Option<int32>)

  /** `new GameEndType()`. */
  const NEW_GAME_END: GameEndType := GameEndType(None, None)

  /** A decoded event payload: one case per payload class. */
  datatype EventPayload =
    | GameStart(gameStart: GameStartType)
    | PreFrameUpdate(pre: PreFrameUpdateType)
    | PostFrameUpdate(post: PostFrameUpdateType)
    | ItemUpdate(item: ItemUpdateType)
    | FrameBookend(bookend: FrameBookendType)
    | GameEnd(gameEnd: GameEndType)

  /** The command under which each payload class is produced. */
  function CommandOfPayload(p: EventPayload): Command {
    match p
    case GameStart(_) => GameStartCmd
    case PreFrameUpdate(_) => PreFrameUpdateCmd
    case PostFrameUpdate(_) => PostFrameUpdateCmd
    case ItemUpdate(_) => ItemUpdateCmd
    case FrameBookend(_) => FrameBookendCmd
    case GameEnd(_) => GameEndCmd
  }

  // ----- exceptions -----

  /** The .NET exceptions the modelled code can raise. */
  datatype Exception =
    | ArgumentException
    | KeyNotFoundException
    | InvalidOperationException    // `.Value` of an empty nullable
    | NullReferenceException
    | FormatException              // Version.Parse of malformed text
    | OverflowException            // a negative array size
    | IndexOutOfRangeException

  /** How a call ended: normally, or by throwing. State changed before a throw stays changed. */
  datatype Status = Ok | Threw(e: Exception)

  /** A value together with how the call that computed it ended. */
  datatype Outcome<T> = Outcome(value: T, status: Status)

  // ----- UBJSON object graphs -----

  /**
   * The .NET objects a UBJSON deserialiser yields: `Dictionary<string, object>`,
   * `object[]`, boxed int, bool and string, null, and any other boxed value.
   */
  datatype Obj =
    | ODict(entries: map<string, Obj>)
    | OArray(items: seq<Obj>)
    | OInt(i: int32)
    | OBool(b: bool)
    | OString(s: string)
    | ONull
    | OOther

  /** `o as int?`. */
  function AsInt(o: Obj): Option<int32> {
    if o.OInt? then Some(o.i) else None
  }

  /** `o as bool?`. */
  function AsBool(o: Obj): Option<bool> {
    if o.OBool? then Some(o.b) else None
  }

  /** `o as string`. */
  function AsString(o: Obj): Option<string> {
    if o.OString? then Some(o.s) else None
  }

  /** The keys PlayerType.DeserializeFromUbJson looks up, in lookup order. */
  const PLAYER_KEYS: seq<string> :=
    ["playerIndex", "port", "characterId", "characterColor", "startStocks", "type", "teamId", "controllerFix", "nameTag"]

  /** Every key is looked up with the indexer, and the first two must hold ints. */
  predicate PlayerPayloadOk(o: Obj) {
    o.ODict? && (forall k :: k in PLAYER_KEYS ==> k in o.entries)
    && o.entries["playerIndex"].OInt? && o.entries["port"].OInt?
  }

  /**
   * PlayerType.DeserializeFromUbJson on the receiver `p`. The fields are assigned
   * in key order; a missing key throws KeyNotFoundException and a non-int
   * `playerIndex` or `port` throws InvalidOperationException, leaving the fields
   * assigned before it in place.
   */
  function DeserializePlayer(p: PlayerType, payload: Obj): (r: Outcome<PlayerType>)
    ensures !payload.ODict? ==> r == Outcome(p, Threw(ArgumentException))
    ensures r.status == Ok <==> PlayerPayloadOk(payload)
    ensures r.status == Ok ==>
      var d := payload.entries;
      r.value == PlayerType(d["playerIndex"].i, d["port"].i,
        AsInt(d["characterId"]), AsInt(d["characterColor"]), AsInt(d["startStocks"]),
        AsInt(d["type"]), AsInt(d["teamId"]), AsString(d["controllerFix"]), AsString(d["nameTag"]))
    ensures r.status.Threw? && payload.ODict? ==>
      r.status.e == KeyNotFoundException || r.status.e == InvalidOperationException
  {
    if !payload.ODict? then Outcome(p, Threw(ArgumentException))
    else
      var d := payload.entries;
      if "playerIndex" !in d then Outcome(p, Threw(KeyNotFoundException))
      else if !d["playerIndex"].OInt? then Outcome(p, Threw(InvalidOperationException))
      else
        var p := p.(playerIndex := d["playerIndex"].i);
        if "port" !in d then Outcome(p, Threw(KeyNotFoundException))
        else if !d["port"].OInt? then Outcome(p, Threw(InvalidOperationException))
        else
          var p := p.(port := d["port"].i);
          if "characterId" !in d then Outcome(p, Threw(KeyNotFoundException))
          else
            var p := p.(characterId := AsInt(d["characterId"]));
            if "characterColor" !in d then Outcome(p, Threw(KeyNotFoundException))
            else
              var p := p.(characterColor := AsInt(d["characterColor"]));
              if "startStocks" !in d then Outcome(p, Threw(KeyNotFoundException))
              else
                var p := p.(startStocks := AsInt(d["startStocks"]));
                if "type" !in d then Outcome(p, Threw(KeyNotFoundException))
                else
                  var p := p.(slotType := AsInt(d["type"]));
                  if "teamId" !in d then Outcome(p, Threw(KeyNotFoundException))
                  else
                    var p := p.(teamId := AsInt(d["teamId"]));
                    if "controllerFix" !in d then Outcome(p, Threw(KeyNotFoundException))
                    else
                      var p := p.(controllerFix := AsString(d["controllerFix"]));
                      if "nameTag" !in d then Outcome(p, Threw(KeyNotFoundException))
                      else Outcome(p.(nameTag := AsString(d["nameTag"])), Ok)
  }

  /** Whether element `o` of the players array yields a player without throwing. */
  predicate PlayerElementOk(o: Obj) {
    DeserializePlayer(NEW_PLAYER, o).status == Ok
  }

  /** The position of the first element of `items` that throws, or |items| if none does. */
  function FirstBadPlayer(items: seq<Obj>): (j: nat)
    ensures j <= |items|
    ensures forall i :: 0 <= i < j ==> PlayerElementOk(items[i])
    ensures j < |items| ==> !PlayerElementOk(items[j])
  {
    if items == [] then 0
    else if !PlayerElementOk(items[0]) then 0
    else 1 + FirstBadPlayer(items[1..])
  }

  /** The players decoded from a prefix of the array, one fresh PlayerType per element. */
  function DecodedPlayers(items: seq<Obj>): (ps: seq<PlayerType>)
    ensures |ps| == |items|
  {
    seq(|items|, i requires 0 <= i < |items| => DeserializePlayer(NEW_PLAYER, items[i]).value)
  }

  /** The four optional scalar keys read before the players, each assigned only when present. */
  function WithHeader(g: GameStartType, d: map<string, Obj>): (r: GameStartType)
    ensures r.slpVersion == (if "slpVersion" in d then AsString(d["slpVersion"]) else g.slpVersion)
    ensures r.isTeams == (if "isTeams" in d then AsBool(d["isTeams"]) else g.isTeams)
    ensures r.isPAL == (if "isPAL" in d then AsBool(d["isPAL"]) else g.isPAL)
    ensures r.stageId == (if "stageId" in d then AsInt(d["stageId"]) else g.stageId)
    ensures r.players == g.players && r.scene == g.scene && r.gameMode == g.gameMode
  {
    var g := if "slpVersion" in d then g.(slpVersion := AsString(d["slpVersion"])) else g;
    var g := if "isTeams" in d then g.(isTeams := AsBool(d["isTeams"])) else g;
    var g := if "isPAL" in d then g.(isPAL := AsBool(d["isPAL"])) else g;
    if "stageId" in d then g.(stageId := AsInt(d["stageId"])) else g
  }

  /**
   * GameStartType.DeserializeFromUbJson on the receiver `g`: the optional scalar keys
   * are assigned only when present, the player list is cleared and rebuilt in array
   * order, and the first element that is not a well-formed player dictionary stops it.
   */
  method DeserializeGameStart(g: GameStartType, payload: Obj) returns (r: GameStartType, status: Status)
    ensures !payload.ODict? ==> r == g && status == Threw(ArgumentException)
    ensures payload.ODict? ==>
      var d := payload.entries;
      && r.slpVersion == (if "slpVersion" in d then AsString(d["slpVersion"]) else g.slpVersion)
      && r.isTeams == (if "isTeams" in d then AsBool(d["isTeams"]) else g.isTeams)
      && r.isPAL == (if "isPAL" in d then AsBool(d["isPAL"]) else g.isPAL)
      && r.stageId == (if "stageId" in d then AsInt(d["stageId"]) else g.stageId)
    // the players array itself is missing or is not an array
    ensures payload.ODict? && "players" !in payload.entries ==>
      status == Threw(KeyNotFoundException) && r.players == [] && r.scene == g.scene && r.gameMode == g.gameMode
    ensures payload.ODict? && "players" in payload.entries && !payload.entries["players"].OArray? ==>
      status == Threw(NullReferenceException) && r.players == [] && r.scene == g.scene && r.gameMode == g.gameMode
    // an element of it fails: the players before it are kept, nothing after it runs
    ensures payload.ODict? && "players" in payload.entries && payload.entries["players"].OArray? ==>
      var items := payload.entries["players"].items;
      var j := FirstBadPlayer(items);
      && r.players == DecodedPlayers(items[..j])
      && (j < |items| ==>
            status == DeserializePlayer(NEW_PLAYER, items[j]).status && r.scene == g.scene && r.gameMode == g.gameMode)
    // all elements succeed: scene and gameMode follow
    ensures payload.ODict? && "players" in payload.entries && payload.entries["players"].OArray?
            && FirstBadPlayer(payload.entries["players"].items) == |payload.entries["players"].items| ==>
      var d := payload.entries;
      && r.scene == (if "scene" in d then AsInt(d["scene"]) else g.scene)
      && (("gameMode" in d && !d["gameMode"].OInt?) <==> status == Threw(InvalidOperationException))
      && (status == Ok ==> r.gameMode == (if "gameMode" in d then Some(d["gameMode"].i) else g.gameMode))
    ensures status == Ok <==>
      payload.ODict? && "players" in payload.entries && payload.entries["players"].OArray?
      && FirstBadPlayer(payload.entries["players"].items) == |payload.entries["players"].items|
      && ("gameMode" in payload.entries ==> payload.entries["gameMode"].OInt?)
  {
    r := g;
    if !payload.ODict? {
      return r, Threw(ArgumentException);
    }
    var data := payload.entries;
    r := WithHeader(g, data).(players := []);
    if "players" !in data {
      return r, Threw(KeyNotFoundException);
    }
    if !data["players"].OArray? {
      return r, Threw(NullReferenceException);
    }
    var playersData := data["players"].items;
    for i := 0 to |playersData|
      invariant r == WithHeader(g, data).(players := DecodedPlayers(playersData[..i]))
      invariant forall k :: 0 <= k < i ==> PlayerElementOk(playersData[k])
    {
      var playerData := playersData[i];
      if !playerData.ODict? {
        FirstBadIsFirst(playersData, i);
        return r, Threw(ArgumentException);
      }
      var player := DeserializePlayer(NEW_PLAYER, playerData);
      if player.status != Ok {
        FirstBadIsFirst(playersData, i);
        return r, player.status;
      }
      r := r.(players := r.players + [player.value]);
      assert playersData[..i + 1] == playersData[..i] + [playerData];
    }
    FirstBadIsFirst(playersData, |playersData|);
    assert playersData[..|playersData|] == playersData;

    if "scene" in data {
      r := r.(scene := AsInt(data["scene"]));
    }
    if "gameMode" in data {
      if !data["gameMode"].OInt? {
        return r, Threw(InvalidOperationException);
      }
      r := r.(gameMode := Some(data["gameMode"].i));
    }
    return r, Ok;
  }

  /** The first failing element is the first position where the scan meets a failure. */
  lemma {:induction false} FirstBadIsFirst(items: seq<Obj>, i: nat)
    requires i <= |items|
    requires forall k :: 0 <= k < i ==> PlayerElementOk(items[k])
    requires i < |items| ==> !PlayerElementOk(items[i])
    ensures FirstBadPlayer(items) == i
  {
    if i > 0 {
      assert PlayerElementOk(items[0]);
      FirstBadIsFirst(items[1..], i - 1);
    }
  }

  /** GameEndType.DeserializeFromUbJson: each field is assigned only when its key is present. */
  function DeserializeGameEnd(g: GameEndType, payload: Obj): (r: Outcome<GameEndType>)
    ensures r.status == Ok <==> payload.ODict?
    ensures !payload.ODict? ==> r == Outcome(g, Threw(ArgumentException))
    ensures payload.ODict? ==>
      var d := payload.entries;
      && r.value.gameEndMethod == (if "gameEndMethod" in d then AsInt(d["gameEndMethod"]) else g.gameEndMethod)
      && r.value.lrasInitiatorIndex == (if "lrasInitiatorIndex" in d then AsInt(d["lrasInitiatorIndex"]) else g.lrasInitiatorIndex)
  {
    if !payload.ODict? then Outcome(g, Threw(ArgumentException))
    else
      var d := payload.entries;
      var g := if "gameEndMethod" in d then g.(gameEndMethod := AsInt(d["gameEndMethod"])) else g;
      var g := if "lrasInitiatorIndex" in d then g.(lrasInitiatorIndex := AsInt(d["lrasInitiatorIndex"])) else g;
      Outcome(g, Ok)
  }
}
