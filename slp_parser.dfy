/**
 * SlpParser: the frame-reconstruction state machine. It receives decoded events one
 * at a time, keeps the game settings, assembles per-frame entries (player and
 * follower pre/post updates, items, the transfer-complete flag), and finalizes frames
 * in increasing order once rollback can no longer change them.
 *
 * The four .NET events (Settings, Frame, FinalizedFrame, End) are modelled as an
 * appended notification log; each notification carries a snapshot of its argument.
 */
module SlpParser {
  import opened Wrappers
  import opened Bits
  import opened Types
  import Version

  const MAX_ROLLBACK_FRAMES: int := 7

  datatype PrePostUpdates = PrePostUpdates(pre: Option<PreFrameUpdateType>, post: Option<PostFrameUpdateType>)

  const NEW_UPDATES: PrePostUpdates := PrePostUpdates(None, None)

  datatype FrameEntryType = FrameEntryType(
    frame: Option<int32>,
    players: map<int32, PrePostUpdates>,
    followers: map<int32, PrePostUpdates>,
    items: seq<ItemUpdateType>,
    isTransferComplete: Option<bool>)

  /** `new FrameEntryType()`. */
  const NEW_FRAME_ENTRY: FrameEntryType := FrameEntryType(None, map[], map[], [], None)

  datatype Notification =
    | SettingsReady(settings: Option<GameStartType>)
    | FrameReady(frame: FrameEntryType)
    | FrameFinalized(num: int32, entry: Option<FrameEntryType>)
    | GameEnded(gameEnd: GameEndType)

  // ----- specification functions -----

  function Max(a: int, b: int): int {
    if a < b then b else a
  }

  /** `GetFrame` on a given frame table: the entry, or null. */
  function FrameAt(frames: map<int32, FrameEntryType>, n: int32): Option<FrameEntryType> {
    if n in frames then Some(frames[n]) else None
  }

  /** The entry for frame `n`, created empty when missing (`TryGetValue` or `new`). */
  function EntryOr(frames: map<int32, FrameEntryType>, n: int32): FrameEntryType {
    if n in frames then frames[n] else NEW_FRAME_ENTRY
  }

  /** The frame numbers of the FrameFinalized notifications of a log, in order. */
  function FinalizedNumbers(log: seq<Notification>): seq<int> {
    if log == [] then []
    else
      var last := log[|log| - 1];
      FinalizedNumbers(log[..|log| - 1]) + (if last.FrameFinalized? then [last.num as int] else [])
  }

  /** The number of Settings notifications in a log. */
  function SettingsCount(log: seq<Notification>): nat {
    if log == [] then 0
    else SettingsCount(log[..|log| - 1]) + (if log[|log| - 1].SettingsReady? then 1 else 0)
  }

  /** The integers lo, lo + 1, ..., hi - 1. */
  function Range(lo: int, hi: int): (r: seq<int>)
    ensures |r| == Max(hi - lo, 0)
    decreases hi - lo
  {
    if hi <= lo then [] else Range(lo, hi - 1) + [hi - 1]
  }

  /** The i-th element of `Range(lo, hi)` is lo + i: the integers in order, each once. */
  lemma {:induction false} RangeIndex(lo: int, hi: int, i: int)
    requires 0 <= i < hi - lo
    ensures Range(lo, hi)[i] == lo + i
    decreases hi - lo
  {
    if i < hi - lo - 1 {
      RangeIndex(lo, hi - 1, i);
    }
  }

  /**
   * The notifications `FinalizeFrames(upTo)` emits when the last finalized frame is
   * `after`: one per frame in (after, upTo], in increasing order, each carrying that
   * frame's entry or null.
   */
  function FinalizedRun(frames: map<int32, FrameEntryType>, after: int, upTo: int32): (r: seq<Notification>)
    requires INT32_MIN <= after
    decreases upTo - after
  {
    if upTo <= after then []
    else FinalizedRun(frames, after, (upTo - 1) as int32) + [FrameFinalized(upTo, FrameAt(frames, upTo))]
  }

  lemma {:induction false} FinalizedNumbersAppend(a: seq<Notification>, b: seq<Notification>)
    ensures FinalizedNumbers(a + b) == FinalizedNumbers(a) + FinalizedNumbers(b)
    decreases |b|
  {
    if b != [] {
      assert (a + b)[..|a + b| - 1] == a + b[..|b| - 1];
      FinalizedNumbersAppend(a, b[..|b| - 1]);
    } else {
      assert a + b == a;
    }
  }

  lemma {:induction false} SettingsCountAppend(a: seq<Notification>, b: seq<Notification>)
    ensures SettingsCount(a + b) == SettingsCount(a) + SettingsCount(b)
    decreases |b|
  {
    if b != [] {
      assert (a + b)[..|a + b| - 1] == a + b[..|b| - 1];
      SettingsCountAppend(a, b[..|b| - 1]);
    } else {
      assert a + b == a;
    }
  }

  /**
   * Finalizing after `after` upTo `upTo` announces exactly the frames after + 1 .. upTo, each
   * once, in increasing order, and no Settings notification.
   */
  lemma {:induction false} FinalizedRunNumbers(frames: map<int32, FrameEntryType>, after: int, upTo: int32)
    requires INT32_MIN <= after
    ensures FinalizedNumbers(FinalizedRun(frames, after, upTo)) == Range(after + 1, upTo + 1)
    ensures SettingsCount(FinalizedRun(frames, after, upTo)) == 0
    ensures |FinalizedRun(frames, after, upTo)| == Max(upTo - after, 0)
    decreases upTo - after
  {
    if upTo > after {
      var prev := FinalizedRun(frames, after, (upTo - 1) as int32);
      var last := FrameFinalized(upTo, FrameAt(frames, upTo));
      FinalizedRunNumbers(frames, after, (upTo - 1) as int32);
      FinalizedNumbersAppend(prev, [last]);
      SettingsCountAppend(prev, [last]);
      assert FinalizedNumbers([last]) == [upTo as int] by {
        assert [last][..0] == [];
      }
      assert SettingsCount([last]) == 0 by {
        assert [last][..0] == [];
      }
    }
  }

  /**
   * A log that has announced the finalized frames first .. last, in increasing order
   * and each once, and that has fired Settings once if `settingsFired` and never otherwise.
   */
  predicate LogAccounts(log: seq<Notification>, first: int, last: int, settingsFired: bool) {
    && FinalizedNumbers(log) == Range(first, last + 1)
    && SettingsCount(log) == (if settingsFired then 1 else 0)
  }

  /** Announcing the frame after the last finalized one keeps the log's frame numbers consecutive. */
  lemma {:induction false} AppendFinalized(log: seq<Notification>, n: Notification, first: int, last: int, settingsFired: bool)
    requires n.FrameFinalized? && n.num as int == last + 1
    requires LogAccounts(log, first, last, settingsFired)
    requires first <= last + 1
    ensures LogAccounts(log + [n], first, last + 1, settingsFired)
  {
    FinalizedNumbersAppend(log, [n]);
    SettingsCountAppend(log, [n]);
    assert [n][..0] == [];
    assert Range(first, last + 2) == Range(first, last + 1) + [last + 1];
  }

  /** A Frame or End notification adds no frame number and no Settings. */
  lemma {:induction false} AppendOther(log: seq<Notification>, n: Notification, first: int, last: int, settingsFired: bool)
    requires n.FrameReady? || n.GameEnded?
    requires LogAccounts(log, first, last, settingsFired)
    ensures LogAccounts(log + [n], first, last, settingsFired)
  {
    FinalizedNumbersAppend(log, [n]);
    SettingsCountAppend(log, [n]);
    assert [n][..0] == [];
    assert FinalizedNumbers(log + [n]) == FinalizedNumbers(log) + [];
  }

  /** The first Settings notification adds no frame number and makes the Settings count one. */
  lemma {:induction false} AppendSettings(log: seq<Notification>, st: Option<GameStartType>, first: int, last: int)
    requires LogAccounts(log, first, last, false)
    ensures LogAccounts(log + [SettingsReady(st)], first, last, true)
  {
    FinalizedNumbersAppend(log, [SettingsReady(st)]);
    SettingsCountAppend(log, [SettingsReady(st)]);
    assert [SettingsReady(st)][..0] == [];
    assert FinalizedNumbers(log + [SettingsReady(st)]) == FinalizedNumbers(log) + [];
  }

  /** `player.Type != 3`: the players GameStart keeps, in their original order. */
  function KeepOccupied(players: seq<PlayerType>): (kept: seq<PlayerType>)
    ensures |kept| <= |players|
    ensures forall p :: p in kept <==> p in players && p.slotType != Some(3)
  {
    if players == [] then []
    else
      var rest := KeepOccupied(players[1..]);
      assert forall p :: p in players <==> p == players[0] || p in players[1..];
      if players[0].slotType != Some(3) then [players[0]] + rest else rest
  }

  /** Filtering distributes over concatenation, so the kept players stay in list order. */
  lemma {:induction false} KeepOccupiedAppend(a: seq<PlayerType>, b: seq<PlayerType>)
    ensures KeepOccupied(a + b) == KeepOccupied(a) + KeepOccupied(b)
  {
    if a != [] {
      assert (a + b)[1..] == a[1..] + b;
      KeepOccupiedAppend(a[1..], b);
    } else {
      assert a + b == b;
    }
  }

  /**
   * The Sheik/Zelda fix-up of a post-frame update at or before the first frame:
   * internal character 0x7 (Sheik) sets CharacterId 0x13, internal character 0x13
   * (Zelda) sets 0x12, on the player at position PlayerIndex of the filtered list.
   */
  function SheikFix(settings: Option<GameStartType>, payload: PostFrameUpdateType): (r: Outcome<Option<GameStartType>>)
    ensures payload.playerIndex.None? ==> r == Outcome(settings, Threw(InvalidOperationException))
    ensures payload.playerIndex.Some? && settings.None? ==> r == Outcome(settings, Threw(NullReferenceException))
    ensures r.status.Threw? ==> r.value == settings
    ensures r.status == Ok ==>
      && r.value.Some? && settings.Some?
      && r.value.value == settings.value.(players := r.value.value.players)
      && |r.value.value.players| == |settings.value.players|
      && (forall i :: 0 <= i < |settings.value.players| && i != payload.playerIndex.value ==>
            r.value.value.players[i] == settings.value.players[i])
    ensures r.status == Ok && payload.internalCharacterId != Some(0x7) && payload.internalCharacterId != Some(0x13) ==>
      r.value == settings
    ensures payload.playerIndex.Some? && settings.Some?
            && (payload.internalCharacterId == Some(0x7) || payload.internalCharacterId == Some(0x13)) ==>
      var idx := payload.playerIndex.value;
      && (r.status == Ok <==> 0 <= idx < |settings.value.players|)
      && (r.status.Threw? ==> r.status == Threw(KeyNotFoundException))
      && (r.status == Ok ==> r.value.value.players[idx] == settings.value.players[idx].(
            characterId := Some(if payload.internalCharacterId == Some(0x7) then 0x13 else 0x12)))
  {
    if payload.playerIndex.None? then Outcome(settings, Threw(InvalidOperationException))
    else if settings.None? then Outcome(settings, Threw(NullReferenceException))
    else
      var idx := payload.playerIndex.value;
      var players := settings.value.players;
      if payload.internalCharacterId == Some(0x7) || payload.internalCharacterId == Some(0x13) then
        if !(0 <= idx < |players|) then Outcome(settings, Threw(KeyNotFoundException))
        else
          var id := if payload.internalCharacterId == Some(0x7) then 0x13 else 0x12;
          Outcome(Some(settings.value.(players := players[idx := players[idx].(characterId := Some(id))])), Ok)
      else Outcome(settings, Ok)
  }

  /** The frame number, follower flag and player index of a pre- or post-frame update. */
  function UpdateFrame(u: EventPayload): Option<int32>
    requires u.PreFrameUpdate? || u.PostFrameUpdate?
  {
    if u.PreFrameUpdate? then u.pre.frame else u.post.frame
  }

  function UpdateIsFollower(u: EventPayload): Option<bool>
    requires u.PreFrameUpdate? || u.PostFrameUpdate?
  {
    if u.PreFrameUpdate? then u.pre.isFollower else u.post.isFollower
  }

  function UpdatePlayerIndex(u: EventPayload): Option<int32>
    requires u.PreFrameUpdate? || u.PostFrameUpdate?
  {
    if u.PreFrameUpdate? then u.pre.playerIndex else u.post.playerIndex
  }

  /** The player or follower table of an entry, chosen by the IsFollower flag (null counts as false). */
  function Slots(e: FrameEntryType, isFollower: Option<bool>): map<int32, PrePostUpdates> {
    if isFollower == Some(true) then e.followers else e.players
  }

  /**
   * Frame `n`'s entry after recording update `u` for player `idx`: only the Pre (or
   * Post) slot of `Followers[idx]` (or `Players[idx]`) changes, and the entry's
   * frame number becomes `n`.
   */
  function WithUpdate(e: FrameEntryType, u: EventPayload, idx: int32, n: int32): (r: FrameEntryType)
    requires u.PreFrameUpdate? || u.PostFrameUpdate?
    ensures r.frame == Some(n) && r.items == e.items && r.isTransferComplete == e.isTransferComplete
    ensures UpdateIsFollower(u) == Some(true) ==> r.players == e.players && r.followers.Keys == e.followers.Keys + {idx}
    ensures UpdateIsFollower(u) != Some(true) ==> r.followers == e.followers && r.players.Keys == e.players.Keys + {idx}
    ensures var slots, newSlots := Slots(e, UpdateIsFollower(u)), Slots(r, UpdateIsFollower(u));
      && (forall k :: k in slots && k != idx ==> newSlots[k] == slots[k])
      && var before := if idx in slots then slots[idx] else NEW_UPDATES;
         if u.PreFrameUpdate? then newSlots[idx] == before.(pre := Some(u.pre))
         else newSlots[idx] == before.(post := Some(u.post))
  {
    var follower := UpdateIsFollower(u) == Some(true);
    var slots := if follower then e.followers else e.players;
    var before := if idx in slots then slots[idx] else NEW_UPDATES;
    var after := if u.PreFrameUpdate? then before.(pre := Some(u.pre)) else before.(post := Some(u.post));
    if follower then e.(followers := e.followers[idx := after], frame := Some(n))
    else e.(players := e.players[idx := after], frame := Some(n))
  }

  /** Whether entry `e` holds update `u` in the Pre (or Post) slot of its player's (or follower's) table. */
  predicate Recorded(e: FrameEntryType, u: EventPayload)
    requires u.PreFrameUpdate? || u.PostFrameUpdate?
    requires UpdatePlayerIndex(u).Some?
  {
    var slots, idx := Slots(e, UpdateIsFollower(u)), UpdatePlayerIndex(u).value;
    && idx in slots
    && (if u.PreFrameUpdate? then slots[idx].pre == Some(u.pre) else slots[idx].post == Some(u.post))
  }

  /** The entry WithUpdate builds holds the update, whatever the entry held before and whatever its transfer flag. */
  lemma WithUpdateRecords(e: FrameEntryType, u: EventPayload, n: int32, complete: Option<bool>)
    requires u.PreFrameUpdate? || u.PostFrameUpdate?
    requires UpdatePlayerIndex(u).Some?
    ensures Recorded(WithUpdate(e, u, UpdatePlayerIndex(u).value, n).(isTransferComplete := complete), u)
  {
    var r := WithUpdate(e, u, UpdatePlayerIndex(u).value, n);
    assert Slots(r.(isTransferComplete := complete), UpdateIsFollower(u)) == Slots(r, UpdateIsFollower(u));
  }

  /**
   * Whether pre/post updates drive the Frame notification and finalization directly
   * (files without frame bookends): settings are available and their version is
   * null or at most 2.2.0. None when Version.Parse throws.
   */
  function UnbookendedMode(settings: Option<GameStartType>): Option<bool> {
    if settings.None? then Some(false)
    else if settings.value.slpVersion.None? then Some(true)
    else
      match Version.Parse(settings.value.slpVersion.value)
      case None => None
      case Some(v) => Some(Version.AtMost(v, Version.LAST_UNBOOKENDED_VERSION))
  }

  /**
   * The frame a bookend finalizes through: the reported latest finalized frame for
   * online games when it is at least the first frame, otherwise the current frame
   * minus the rollback window (int arithmetic, so it wraps).
   */
  function BookendTarget(gameMode: Option<int32>, latestFinalized: int32, current: int32, firstFrame: int32): (t: int32)
    ensures gameMode == Some(GAME_MODE_ONLINE as int32) && latestFinalized >= firstFrame ==> t == latestFinalized
    ensures (!(gameMode == Some(GAME_MODE_ONLINE as int32) && latestFinalized >= firstFrame)
             && current - MAX_ROLLBACK_FRAMES >= INT32_MIN) ==> t == current - MAX_ROLLBACK_FRAMES
  {
    if gameMode == Some(GAME_MODE_ONLINE as int32) && latestFinalized >= firstFrame then latestFinalized
    else Wrap32(current - MAX_ROLLBACK_FRAMES)
  }

  /** The Settings notification a step fires: one exactly when it completes the settings. */
  function SettingsNote(wasComplete: bool, isComplete: bool, settings: Option<GameStartType>): (r: seq<Notification>)
    ensures |r| <= 1 && (r != [] <==> !wasComplete && isComplete)
    ensures r != [] ==> r == [SettingsReady(settings)]
  {
    if !wasComplete && isComplete then [SettingsReady(settings)] else []
  }

  // ----- the parser -----

  class SlpParser {
    /** `Frames.FIRST`, the number of the first frame of a game. */
    const firstFrame: int32

    var frames: map<int32, FrameEntryType>
    var settings: Option<GameStartType>
    var gameEnd: Option<GameEndType>
    var latestFrameIndex: Option<int32>
    var settingsComplete: bool
    var lastFinalizedFrame: int32
    /** Every notification fired so far, oldest first. */
    var log: seq<Notification>
    /** Every payload handed to HandleCommand so far, oldest first. */
    ghost var handled: seq<EventPayload>

    /**
     * Frames are finalized one at a time from the first frame on, each exactly once;
     * the Settings notification fires exactly once settings are complete; every
     * entry is stored under its own frame number; the latest frame has an entry.
     */
    predicate Valid()
      reads this
    {
      && INT32_MIN < firstFrame
      && firstFrame - 1 <= lastFinalizedFrame
      && LogAccounts(log, firstFrame as int, lastFinalizedFrame as int, settingsComplete)
      && (forall k :: k in frames && frames[k].frame.Some? ==> frames[k].frame.value == k)
      && (latestFrameIndex.Some? ==> latestFrameIndex.value in frames)
    }

    /**
     * What no event undoes: notifications are only appended, the last finalized
     * frame never decreases, and frame entries are never removed.
     */
    twostate predicate Grew()
      reads this
    {
      old(log) <= log && old(lastFinalizedFrame) <= lastFinalizedFrame && old(frames).Keys <= frames.Keys
    }

    constructor(firstFrame: int32)
      requires INT32_MIN < firstFrame
      ensures Valid()
      ensures this.firstFrame == firstFrame
      ensures frames == map[] && settings == None && gameEnd == None && latestFrameIndex == None
      ensures !settingsComplete && lastFinalizedFrame == firstFrame - 1 && log == [] && handled == []
    {
      this.firstFrame := firstFrame;
      frames := map[];
      settings := None;
      gameEnd := None;
      latestFrameIndex := None;
      settingsComplete := false;
      lastFinalizedFrame := firstFrame - 1;
      log := [];
      handled := [];
    }

    /** The settings, once they are complete; null before. */
    function GetSettings(): (r: Option<GameStartType>)
      reads this
      ensures !settingsComplete ==> r == None
      ensures r.Some? ==> r == settings && (Valid() ==> SettingsCount(log) == 1)
      ensures settingsComplete ==> r == settings
    {
      if settingsComplete then settings else None
    }

    /** The entry of frame `num`, or null. */
    function GetFrame(num: int32): (r: Option<FrameEntryType>)
      reads this
      ensures r.Some? <==> num in frames
      ensures r.Some? ==> r.value == frames[num] && (Valid() && r.value.frame.Some? ==> r.value.frame.value == num)
    {
      FrameAt(frames, num)
    }

    /** The end record of the last GameEnd event, or null before one. */
    function GetGameEnd(): (r: Option<GameEndType>)
      reads this
      ensures r == gameEnd
    {
      gameEnd
    }

    /** Fires Settings the first time it runs; later calls change nothing. */
    method CompleteSettings()
      modifies this
      requires Valid()
      ensures Valid()
      ensures settingsComplete
      ensures log == if old(settingsComplete) then old(log) else old(log) + [SettingsReady(settings)]
      ensures frames == old(frames) && settings == old(settings) && gameEnd == old(gameEnd)
      ensures latestFrameIndex == old(latestFrameIndex) && lastFinalizedFrame == old(lastFinalizedFrame)
    {
      if !settingsComplete {
        settingsComplete := true;
        AppendSettings(log, settings, firstFrame as int, lastFinalizedFrame as int);
        log := log + [SettingsReady(settings)];
      }
    }

    /** Finalizes every frame after the last finalized one up to `num`, in order. */
    method FinalizeFrames(num: int32)
      modifies this
      requires Valid()
      ensures Valid()
      ensures lastFinalizedFrame == Max(old(lastFinalizedFrame), num)
      ensures log == old(log) + FinalizedRun(frames, old(lastFinalizedFrame), num)
      ensures frames == old(frames) && settings == old(settings) && gameEnd == old(gameEnd)
      ensures latestFrameIndex == old(latestFrameIndex) && settingsComplete == old(settingsComplete)
    {
      while lastFinalizedFrame < num
        invariant Valid()
        invariant old(lastFinalizedFrame) <= lastFinalizedFrame <= Max(old(lastFinalizedFrame), num)
        invariant log == old(log) + FinalizedRun(frames, old(lastFinalizedFrame), lastFinalizedFrame)
        invariant frames == old(frames) && settings == old(settings) && gameEnd == old(gameEnd)
        invariant latestFrameIndex == old(latestFrameIndex) && settingsComplete == old(settingsComplete)
        decreases num - lastFinalizedFrame
      {
        ghost var run := FinalizedRun(frames, old(lastFinalizedFrame), lastFinalizedFrame);
        FinalizeOne();
        AppendAssoc(old(log), run, [log[|log| - 1]]);
      }
      if num <= old(lastFinalizedFrame) {
        assert FinalizedRun(frames, old(lastFinalizedFrame), num) == [];
      }
    }

    /** One turn of the finalization loop: announces the frame after the last finalized one, with its entry or null, and makes it the last finalized. */
    method FinalizeOne()
      modifies this
      requires Valid() && lastFinalizedFrame < INT32_MAX
      ensures Valid()
      ensures lastFinalizedFrame == old(lastFinalizedFrame) + 1
      ensures log == old(log) + [FrameFinalized(lastFinalizedFrame, FrameAt(frames, lastFinalizedFrame))]
      ensures frames == old(frames) && settings == old(settings) && gameEnd == old(gameEnd)
      ensures latestFrameIndex == old(latestFrameIndex) && settingsComplete == old(settingsComplete)
    {
      var frameToFinalize: int32 := lastFinalizedFrame + 1;
      var frame := GetFrame(frameToFinalize);
      var note := FrameFinalized(frameToFinalize, frame);
      AppendFinalized(log, note, firstFrame as int, lastFinalizedFrame as int, settingsComplete);
      log := log + [note];
      lastFinalizedFrame := frameToFinalize;
    }

    /** Stores the entry of frame `n` (`frames[n] = entry`, or the in-place update of the stored entry). */
    method PutFrame(n: int32, e: FrameEntryType)
      modifies this
      requires Valid()
      requires e.frame.Some? ==> e.frame.value == n
      ensures Valid()
      ensures frames == old(frames)[n := e]
      ensures log == old(log) && settings == old(settings) && gameEnd == old(gameEnd)
      ensures latestFrameIndex == old(latestFrameIndex) && settingsComplete == old(settingsComplete)
      ensures lastFinalizedFrame == old(lastFinalizedFrame)
    {
      frames := frames[n := e];
    }

    /** Appends a Frame or End notification. */
    method Notify(n: Notification)
      modifies this
      requires Valid()
      requires n.FrameReady? || n.GameEnded?
      ensures Valid()
      ensures log == old(log) + [n]
      ensures frames == old(frames) && settings == old(settings) && gameEnd == old(gameEnd)
      ensures latestFrameIndex == old(latestFrameIndex) && settingsComplete == old(settingsComplete)
      ensures lastFinalizedFrame == old(lastFinalizedFrame)
    {
      AppendOther(log, n, firstFrame as int, lastFinalizedFrame as int, settingsComplete);
      log := log + [n];
    }

    /**
     * GameEnd: finalizes through the latest frame when that is set and differs from
     * the last finalized frame, then stores the end record and fires End.
     */
    method HandleGameEnd(payload: GameEndType)
      modifies this
      requires Valid()
      ensures Valid()
      ensures Grew()
      ensures gameEnd == Some(payload)
      ensures var t := old(latestFrameIndex);
        var finalizes := t.Some? && t.value != old(lastFinalizedFrame);
        && lastFinalizedFrame == (if finalizes then Max(old(lastFinalizedFrame), t.value) else old(lastFinalizedFrame))
        && log == old(log) + (if finalizes then FinalizedRun(frames, old(lastFinalizedFrame), t.value) else [])
                  + [GameEnded(payload)]
      ensures frames == old(frames) && settings == old(settings)
      ensures latestFrameIndex == old(latestFrameIndex) && settingsComplete == old(settingsComplete)
    {
      if latestFrameIndex.Some? && latestFrameIndex.value != lastFinalizedFrame {
        FinalizeFrames(latestFrameIndex.value);
      }
      gameEnd := Some(payload);
      Notify(GameEnded(payload));
    }

    /**
     * GameStart: the settings become the payload with its empty slots (Type 3)
     * removed; a version of at least 1.6.0 completes the settings at once.
     */
    method HandleGameStart(payload: GameStartType) returns (status: Status)
      modifies this
      requires Valid()
      ensures Valid()
      ensures Grew()
      ensures settings == Some(payload.(players := KeepOccupied(payload.players)))
      ensures var v := payload.slpVersion;
        && status == (if v.Some? && Version.Parse(v.value).None? then Threw(FormatException) else Ok)
        && settingsComplete == (old(settingsComplete) || (status == Ok && v.Some?
                                  && Version.AtLeast(Version.Parse(v.value).value, Version.SHEIK_FIX_VERSION)))
      ensures log == if !old(settingsComplete) && settingsComplete then old(log) + [SettingsReady(settings)] else old(log)
      ensures frames == old(frames) && gameEnd == old(gameEnd)
      ensures latestFrameIndex == old(latestFrameIndex) && lastFinalizedFrame == old(lastFinalizedFrame)
    {
      settings := Some(payload.(players := KeepOccupied(payload.players)));
      if payload.slpVersion.Some? {
        var v := Version.Parse(payload.slpVersion.value);
        if v.None? {
          return Threw(FormatException);
        }
        if Version.AtLeast(v.value, Version.SHEIK_FIX_VERSION) {
          CompleteSettings();
        }
      }
      return Ok;
    }

    /**
     * PostFrameUpdate, settings part: nothing once settings are complete; at or
     * before the first frame the Sheik/Zelda fix-up; after it, completion.
     */
    method HandlePostFrameUpdate(payload: PostFrameUpdateType) returns (status: Status)
      modifies this
      requires Valid()
      ensures Valid()
      ensures Grew()
      ensures frames == old(frames) && gameEnd == old(gameEnd)
      ensures latestFrameIndex == old(latestFrameIndex) && lastFinalizedFrame == old(lastFinalizedFrame)
      ensures old(settingsComplete) ==> status == Ok && settings == old(settings) && log == old(log) && settingsComplete
      ensures !old(settingsComplete) && payload.frame.None? ==>
        status == Threw(InvalidOperationException) && settings == old(settings) && log == old(log) && !settingsComplete
      ensures !old(settingsComplete) && payload.frame.Some? && payload.frame.value <= firstFrame ==>
        var fix := SheikFix(old(settings), payload);
        status == fix.status && settings == fix.value && log == old(log) && !settingsComplete
      ensures !old(settingsComplete) && payload.frame.Some? && payload.frame.value > firstFrame ==>
        status == Ok && settings == old(settings) && settingsComplete && log == old(log) + [SettingsReady(settings)]
    {
      if settingsComplete {
        return Ok;
      }
      if payload.frame.None? {
        return Threw(InvalidOperationException);
      }
      if payload.frame.value <= firstFrame {
        var fix := SheikFix(settings, payload);
        settings := fix.value;
        if fix.status != Ok {
          return fix.status;
        }
      }
      if payload.frame.value > firstFrame {
        CompleteSettings();
      }
      return Ok;
    }

    /**
     * Pre- or post-frame update: records it in its frame's entry (created if
     * missing) and makes that frame the latest. Without bookends (settings complete,
     * version null or at most 2.2.0) it fires Frame and finalizes through the previous
     * frame; otherwise it marks the entry's transfer incomplete.
     */
    method HandleFrameUpdate(payload: EventPayload) returns (status: Status)
      modifies this
      requires Valid()
      ensures Valid()
      ensures Grew()
      ensures settings == old(settings) && gameEnd == old(gameEnd) && settingsComplete == old(settingsComplete)
      ensures !(payload.PreFrameUpdate? || payload.PostFrameUpdate?) ==>
        status == Threw(ArgumentException) && frames == old(frames) && log == old(log)
        && latestFrameIndex == old(latestFrameIndex) && lastFinalizedFrame == old(lastFinalizedFrame)
      ensures (payload.PreFrameUpdate? || payload.PostFrameUpdate?)
              && (UpdatePlayerIndex(payload).None? || UpdateFrame(payload).None?) ==>
        status == Threw(InvalidOperationException) && frames == old(frames) && log == old(log)
        && latestFrameIndex == old(latestFrameIndex) && lastFinalizedFrame == old(lastFinalizedFrame)
      ensures (payload.PreFrameUpdate? || payload.PostFrameUpdate?)
              && UpdatePlayerIndex(payload).Some? && UpdateFrame(payload).Some? ==>
        var n := UpdateFrame(payload).value;
        var e := WithUpdate(EntryOr(old(frames), n), payload, UpdatePlayerIndex(payload).value, n);
        var mode := UnbookendedMode(if settingsComplete then settings else None);
        && latestFrameIndex == Some(n)
        && (mode == None ==>
              status == Threw(FormatException) && frames == old(frames)[n := e] && log == old(log)
              && lastFinalizedFrame == old(lastFinalizedFrame))
        && (mode == Some(true) ==>
              status == Ok && frames == old(frames)[n := e]
              && lastFinalizedFrame == Max(old(lastFinalizedFrame), Wrap32(n as int - 1))
              && log == old(log) + [FrameReady(e)] + FinalizedRun(frames, old(lastFinalizedFrame), Wrap32(n as int - 1)))
        && (mode == Some(false) ==>
              status == Ok && frames == old(frames)[n := e.(isTransferComplete := Some(false))] && log == old(log)
              && lastFinalizedFrame == old(lastFinalizedFrame))
    {
      if !(payload.PreFrameUpdate? || payload.PostFrameUpdate?) {
        return Threw(ArgumentException);
      }
      var frame := UpdateFrame(payload);
      var playerIndex := UpdatePlayerIndex(payload);
      if playerIndex.None? || frame.None? {
        return Threw(InvalidOperationException);
      }
      var n := frame.value;
      var frameEntry := WithUpdate(EntryOr(frames, n), payload, playerIndex.value, n);
      SetLatest(n, frameEntry);
      status := AfterFrameUpdate(n, frameEntry);
    }

    /** Stores frame `n`'s entry and makes `n` the latest frame. */
    method SetLatest(n: int32, e: FrameEntryType)
      modifies this
      requires Valid()
      requires e.frame.Some? ==> e.frame.value == n
      ensures Valid()
      ensures frames == old(frames)[n := e] && latestFrameIndex == Some(n)
      ensures log == old(log) && settings == old(settings) && gameEnd == old(gameEnd)
      ensures settingsComplete == old(settingsComplete) && lastFinalizedFrame == old(lastFinalizedFrame)
    {
      PutFrame(n, e);
      latestFrameIndex := Some(n);
    }

    /**
     * The tail of a frame update, once frame `n`'s entry `e` is stored: Frame and
     * finalization through frame n - 1 for files without bookends, otherwise the
     * entry's transfer is marked incomplete.
     */
    method AfterFrameUpdate(n: int32, e: FrameEntryType) returns (status: Status)
      modifies this
      requires Valid()
      requires n in frames && frames[n] == e
      ensures Valid()
      ensures settings == old(settings) && gameEnd == old(gameEnd) && settingsComplete == old(settingsComplete)
      ensures latestFrameIndex == old(latestFrameIndex)
      ensures var mode := UnbookendedMode(if settingsComplete then settings else None);
        && (mode == None ==>
              status == Threw(FormatException) && frames == old(frames) && log == old(log)
              && lastFinalizedFrame == old(lastFinalizedFrame))
        && (mode == Some(true) ==>
              status == Ok && frames == old(frames)
              && lastFinalizedFrame == Max(old(lastFinalizedFrame), Wrap32(n as int - 1))
              && log == old(log) + [FrameReady(e)] + FinalizedRun(frames, old(lastFinalizedFrame), Wrap32(n as int - 1)))
        && (mode == Some(false) ==>
              status == Ok && frames == old(frames)[n := e.(isTransferComplete := Some(false))] && log == old(log)
              && lastFinalizedFrame == old(lastFinalizedFrame))
    {
      var mode := UnbookendedMode(GetSettings());
      if mode.None? {
        return Threw(FormatException);
      }
      if mode.value {
        Notify(FrameReady(e));
        FinalizeFrames(Wrap32(n as int - 1));
      } else {
        assert e.frame.Some? ==> e.frame.value == n;
        PutFrame(n, e.(isTransferComplete := Some(false)));
        assert frames == old(frames)[n := e.(isTransferComplete := Some(false))];
      }
      return Ok;
    }

    /** ItemUpdate: appends the item to its frame's item list, creating the entry if missing. */
    method HandleItemUpdate(payload: ItemUpdateType) returns (status: Status)
      modifies this
      requires Valid()
      ensures Valid()
      ensures Grew()
      ensures settings == old(settings) && gameEnd == old(gameEnd) && settingsComplete == old(settingsComplete)
      ensures log == old(log) && latestFrameIndex == old(latestFrameIndex) && lastFinalizedFrame == old(lastFinalizedFrame)
      ensures payload.frame.None? ==> status == Threw(InvalidOperationException) && frames == old(frames)
      ensures payload.frame.Some? ==>
        var n := payload.frame.value;
        var e := EntryOr(old(frames), n);
        status == Ok && frames == old(frames)[n := e.(items := e.items + [payload])]
    {
      if payload.frame.None? {
        return Threw(InvalidOperationException);
      }
      var n := payload.frame.value;
      var frameEntry := EntryOr(frames, n);
      PutFrame(n, frameEntry.(items := frameEntry.items + [payload]));
      return Ok;
    }

    /**
     * FrameBookend: marks the frame's transfer complete, fires Frame, then finalizes
     * through the bookend target (which needs the settings field to be set).
     */
    method HandleFrameBookend(payload: FrameBookendType) returns (status: Status)
      modifies this
      requires Valid()
      ensures Valid()
      ensures Grew()
      ensures settings == old(settings) && gameEnd == old(gameEnd) && settingsComplete == old(settingsComplete)
      ensures latestFrameIndex == old(latestFrameIndex)
      ensures payload.latestFinalizedFrame.None? || payload.frame.None? ==>
        status == Threw(InvalidOperationException) && frames == old(frames) && log == old(log)
        && lastFinalizedFrame == old(lastFinalizedFrame)
      ensures payload.latestFinalizedFrame.Some? && payload.frame.Some? ==>
        var n := payload.frame.value;
        var e := EntryOr(old(frames), n).(isTransferComplete := Some(true));
        && frames == old(frames)[n := e]
        && (settings.None? ==>
              status == Threw(NullReferenceException) && log == old(log) + [FrameReady(e)]
              && lastFinalizedFrame == old(lastFinalizedFrame))
        && (settings.Some? ==>
              var t := BookendTarget(settings.value.gameMode, payload.latestFinalizedFrame.value, n, firstFrame);
              && status == Ok
              && lastFinalizedFrame == Max(old(lastFinalizedFrame), t)
              && log == old(log) + [FrameReady(e)] + FinalizedRun(frames, old(lastFinalizedFrame), t))
    {
      if payload.latestFinalizedFrame.None? || payload.frame.None? {
        return Threw(InvalidOperationException);
      }
      var latestFinalizedFrame := payload.latestFinalizedFrame.value;
      var n := payload.frame.value;
      var frameEntry := EntryOr(frames, n).(isTransferComplete := Some(true));
      PutFrame(n, frameEntry);
      Notify(FrameReady(frameEntry));
      if settings.None? {
        return Threw(NullReferenceException);
      }
      FinalizeFrames(BookendTarget(settings.value.gameMode, latestFinalizedFrame, n, firstFrame));
      return Ok;
    }

    /** After a successful frame update, the update's frame entry holds it. */
    lemma UpdateRecorded(payload: EventPayload, before: map<int32, FrameEntryType>, status: Status)
      requires payload.PreFrameUpdate? || payload.PostFrameUpdate?
      requires status == Ok
      requires UpdatePlayerIndex(payload).Some? && UpdateFrame(payload).Some?
      requires var n := UpdateFrame(payload).value;
        var e := WithUpdate(EntryOr(before, n), payload, UpdatePlayerIndex(payload).value, n);
        n in frames && (frames[n] == e || frames[n] == e.(isTransferComplete := Some(false)))
      ensures Recorded(frames[UpdateFrame(payload).value], payload)
    {
      var n := UpdateFrame(payload).value;
      var e := WithUpdate(EntryOr(before, n), payload, UpdatePlayerIndex(payload).value, n);
      WithUpdateRecords(EntryOr(before, n), payload, n, Some(false));
      WithUpdateRecords(EntryOr(before, n), payload, n, e.isTransferComplete);
      assert e.(isTransferComplete := e.isTransferComplete) == e;
    }

    /**
     * The pre/post-frame branch of HandleCommand: a post-frame update first goes
     * through the settings part, then both kinds are recorded in their frame.
     */
    method HandleUpdate(payload: EventPayload) returns (status: Status)
      modifies this
      requires Valid()
      requires payload.PreFrameUpdate? || payload.PostFrameUpdate?
      ensures Valid()
      ensures Grew()
      ensures gameEnd == old(gameEnd)
      ensures old(settingsComplete) ==> settingsComplete && settings == old(settings)
      ensures payload.PreFrameUpdate? ==> settings == old(settings) && settingsComplete == old(settingsComplete)
      ensures status == Ok ==>
        && UpdateFrame(payload).Some? && UpdatePlayerIndex(payload).Some?
        && latestFrameIndex == UpdateFrame(payload)
        && UpdateFrame(payload).value in frames
        && Recorded(frames[UpdateFrame(payload).value], payload)
      ensures status == Ok ==>
        var n := UpdateFrame(payload).value;
        var e := WithUpdate(EntryOr(old(frames), n), payload, UpdatePlayerIndex(payload).value, n);
        var mode := UnbookendedMode(if settingsComplete then settings else None);
        var before := old(log) + SettingsNote(old(settingsComplete), settingsComplete, settings);
        && mode.Some?
        && (mode == Some(true) ==>
              frames == old(frames)[n := e]
              && lastFinalizedFrame == Max(old(lastFinalizedFrame), Wrap32(n as int - 1))
              && log == before + [FrameReady(e)] + FinalizedRun(frames, old(lastFinalizedFrame), Wrap32(n as int - 1)))
        && (mode == Some(false) ==>
              frames == old(frames)[n := e.(isTransferComplete := Some(false))]
              && lastFinalizedFrame == old(lastFinalizedFrame) && log == before)
    {
      if payload.PostFrameUpdate? {
        status := HandlePostFrameUpdate(payload.post);
        if status != Ok {
          return;
        }
      }
      ghost var before := frames;
      assert before == old(frames) && lastFinalizedFrame == old(lastFinalizedFrame);
      assert log == old(log) + SettingsNote(old(settingsComplete), settingsComplete, settings);
      status := HandleFrameUpdate(payload);
      if status == Ok {
        UpdateRecorded(payload, before, status);
      }
    }

    /**
     * Dispatches one decoded event. Whatever the event: the log only grows, frames
     * are finalized monotonically, frame entries are never removed, the end record
     * changes only on GameEnd, and complete settings change only on a new GameStart.
     */
    method HandleCommand(payload: EventPayload) returns (status: Status)
      modifies this
      requires Valid()
      ensures Valid()
      ensures Grew()
      ensures handled == old(handled) + [payload]
      ensures GetGameEnd() == if payload.GameEnd? then Some(payload.gameEnd) else old(GetGameEnd())
      ensures old(settingsComplete) ==> settingsComplete
      ensures old(settingsComplete) && !payload.GameStart? ==> settings == old(settings)
      ensures !payload.GameEnd? && !payload.GameStart? && !payload.PostFrameUpdate? ==>
        settings == old(settings) && settingsComplete == old(settingsComplete)
      ensures payload.GameStart? ==>
        settings == Some(payload.gameStart.(players := KeepOccupied(payload.gameStart.players)))
        && frames == old(frames) && latestFrameIndex == old(latestFrameIndex)
      ensures payload.GameStart? ==>
        var v := payload.gameStart.slpVersion;
        && status == (if v.Some? && Version.Parse(v.value).None? then Threw(FormatException) else Ok)
        && settingsComplete == (old(settingsComplete) || (status == Ok && v.Some?
                                  && Version.AtLeast(Version.Parse(v.value).value, Version.SHEIK_FIX_VERSION)))
        && log == old(log) + SettingsNote(old(settingsComplete), settingsComplete, settings)
        && lastFinalizedFrame == old(lastFinalizedFrame)
      ensures payload.GameEnd? ==>
        var t := old(latestFrameIndex);
        var finalizes := t.Some? && t.value != old(lastFinalizedFrame);
        && status == Ok
        && lastFinalizedFrame == (if finalizes then Max(old(lastFinalizedFrame), t.value) else old(lastFinalizedFrame))
        && log == old(log) + (if finalizes then FinalizedRun(frames, old(lastFinalizedFrame), t.value) else [])
                  + [GameEnded(payload.gameEnd)]
        && frames == old(frames) && latestFrameIndex == old(latestFrameIndex)
        && settings == old(settings) && settingsComplete == old(settingsComplete)
      ensures (payload.PreFrameUpdate? || payload.PostFrameUpdate?) && status == Ok ==>
        && UpdateFrame(payload).Some? && UpdatePlayerIndex(payload).Some?
        && latestFrameIndex == UpdateFrame(payload)
        && UpdateFrame(payload).value in frames
        && Recorded(frames[UpdateFrame(payload).value], payload)
      ensures (payload.PreFrameUpdate? || payload.PostFrameUpdate?) && status == Ok ==>
        var n := UpdateFrame(payload).value;
        var e := WithUpdate(EntryOr(old(frames), n), payload, UpdatePlayerIndex(payload).value, n);
        var mode := UnbookendedMode(if settingsComplete then settings else None);
        var before := old(log) + SettingsNote(old(settingsComplete), settingsComplete, settings);
        && mode.Some?
        && (mode == Some(true) ==>
              frames == old(frames)[n := e]
              && lastFinalizedFrame == Max(old(lastFinalizedFrame), Wrap32(n as int - 1))
              && log == before + [FrameReady(e)] + FinalizedRun(frames, old(lastFinalizedFrame), Wrap32(n as int - 1)))
        && (mode == Some(false) ==>
              frames == old(frames)[n := e.(isTransferComplete := Some(false))]
              && lastFinalizedFrame == old(lastFinalizedFrame) && log == before)
      ensures payload.ItemUpdate? ==>
        && latestFrameIndex == old(latestFrameIndex) && lastFinalizedFrame == old(lastFinalizedFrame)
        && (payload.item.frame.None? ==> status == Threw(InvalidOperationException) && frames == old(frames))
        && (payload.item.frame.Some? ==>
              var n := payload.item.frame.value;
              var e := EntryOr(old(frames), n);
              status == Ok && frames == old(frames)[n := e.(items := e.items + [payload.item])])
      ensures payload.FrameBookend? && payload.bookend.latestFinalizedFrame.Some? && payload.bookend.frame.Some? ==>
        var n := payload.bookend.frame.value;
        && n in frames && frames[n].isTransferComplete == Some(true)
        && (settings.None? ==> status == Threw(NullReferenceException))
        && (settings.Some? ==>
              status == Ok
              && lastFinalizedFrame
                 == Max(old(lastFinalizedFrame),
                        BookendTarget(settings.value.gameMode, payload.bookend.latestFinalizedFrame.value, n, firstFrame)))
    {
      match payload {
        case GameStart(g) =>
          status := HandleGameStart(g);
        case PostFrameUpdate(_) =>
          status := HandleUpdate(payload);
        case PreFrameUpdate(_) =>
          status := HandleUpdate(payload);
        case ItemUpdate(i) =>
          status := HandleItemUpdate(i);
        case FrameBookend(b) =>
          status := HandleFrameBookend(b);
        case GameEnd(e) =>
          HandleGameEnd(e);
          status := Ok;
      }
      Record(old(handled), payload);
    }

    /** Notes that HandleCommand, called when `handled` was `prior`, was given `payload`; no other field changes. */
    method Record(ghost prior: seq<EventPayload>, payload: EventPayload)
      modifies this
      ensures handled == prior + [payload]
      ensures frames == old(frames) && settings == old(settings) && gameEnd == old(gameEnd)
      ensures latestFrameIndex == old(latestFrameIndex) && settingsComplete == old(settingsComplete)
      ensures lastFinalizedFrame == old(lastFinalizedFrame) && log == old(log)
    {
      handled := prior + [payload];
    }
  }
}
