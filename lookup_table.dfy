/**
 * SlippiLookupTable: the id-to-name tables the visualizer uses to pick models,
 * stages and animation clips. Each lookup is a switch over the id; an id the switch
 * does not list gives the switch's fallback.
 */
module SlippiLookupTable {
  import opened Wrappers

  /** The character names by external character id 0 .. 25 (Ice Climbers is a placeholder). */
  const CHARACTER_NAMES: seq<string> := [
    /*  0 */ "Captain_Falcon", "Dk", "Fox", "G&W", "Kirby", "Bowser",
    /*  6 */ "Link", "Luigi", "Mario", "Marth", "Mewtwo", "Ness",
    /* 12 */ "Peach", "Pikachu", "Missing_Character", "Jigglypuff", "Samus", "Yoshi",
    /* 18 */ "Zelda", "Sheik", "Falco", "Young_Link", "Doctor_Mario", "Roy",
    /* 24 */ "Pichu", "Ganondorf"]

  /** GetCharacterName: the listed name, or "" for any other id. */
  function GetCharacterName(characterId: int): (r: string)
    ensures characterId < 0 || characterId > 25 ==> r == ""
  {
    if 0 <= characterId < |CHARACTER_NAMES| then CHARACTER_NAMES[characterId] else ""
  }

  /** GetStageName: the listed stages, and Final Destination for every other id. */
  function GetStageName(stageId: int): (r: string)
    ensures r != ""
  {
    match stageId
    case 2 => "Fountain_Of_Dreams"
    case 3 => "Stadium"
    case 8 => "Yoshis_Story"
    case 28 => "Dreamland_Final"
    case 31 => "DietBattlefield"
    case 32 => "Final_Destination"
    case _ => "Final_Destination"
  }

  /** IsAnimationSupported: every animation is. */
  function IsAnimationSupported(animationName: string): (r: bool)
    ensures r
  {
    true
  }

  /** GetCharacterSpecificMapping: Luigi plays SpecialSStart for Wait4; nothing else is remapped (null). */
  function GetCharacterSpecificMapping(characterName: string, animationName: string): (r: Option<string>)
    ensures r.Some? ==> r.value == "SpecialSStart"
  {
    if characterName == "Luigi" && animationName == "Wait4" then Some("SpecialSStart") else None
  }

  /** The animation names by action state id 0 .. 382 (id 6 has none), in blocks of 32 ids. */
  const ANIMATION_NAMES: seq<string> :=
    ANIMATIONS_0 + ANIMATIONS_1 + ANIMATIONS_2 + ANIMATIONS_3 + ANIMATIONS_4 + ANIMATIONS_5
    + ANIMATIONS_6 + ANIMATIONS_7 + ANIMATIONS_8 + ANIMATIONS_9 + ANIMATIONS_10 + ANIMATIONS_11

  const ANIMATIONS_0: seq<string> := [
    /*   0 */ "DeadDown", "DeadLeft", "DeadRight", "DeadUp", "DeadUpStar", "DeadUpStarIce",
    /*   6 */ "", "DeadUpFallHitCamera", "DeadUpFallHitCameraFlat", "DeadUpFallIce", "DeadUpFallHitCameraIce", "Sleep",
    /*  12 */ "Rebirth", "RebirthWait", "Wait1", "WalkSlow", "WalkMiddle", "WalkFast",
    /*  18 */ "Turn", "TurnRun", "Dash", "Run", "RunDirect", "RunBrake",
    /*  24 */ "Landing", "JumpF", "JumpB", "JumpAerialF", "JumpAerialB", "Fall",
    /*  30 */ "FallF", "FallB"]

  const ANIMATIONS_1: seq<string> := [
    /*  32 */ "FallAerial", "FallAerialF", "FallAerialB", "FallSpecial", "FallSpecialF", "FallSpecialB",
    /*  38 */ "DamageFall", "Squat", "SquatWait", "SquatRv", "Landing", "LandingFallSpecial",
    /*  44 */ "Attack11", "Attack12", "Attack13", "Attack100Start", "Attack100Loop", "Attack100End",
    /*  50 */ "AttackDash", "AttackS3Hi", "AttackS3HiS", "AttackS3S", "AttackS3LwS", "AttackS3Lw",
    /*  56 */ "AttackHi3", "AttackLw3", "AttackS4Hi", "AttackS4HiS", "AttackS4S", "AttackS4LwS",
    /*  62 */ "AttackS4Lw", "AttackHi4"]

  const ANIMATIONS_2: seq<string> := [
    /*  64 */ "AttackLw4", "AttackAirN", "AttackAirF", "AttackAirB", "AttackAirHi", "AttackAirLw",
    /*  70 */ "LandingAirN", "LandingAirF", "LandingAirB", "LandingAirHi", "LandingAirLw", "DamageHi1",
    /*  76 */ "DamageHi2", "DamageHi3", "DamageN1", "DamageN2", "DamageN3", "DamageLw1",
    /*  82 */ "DamageLw2", "DamageLw3", "DamageAir1", "DamageAir2", "DamageAir3", "DamageFlyHi",
    /*  88 */ "DamageFlyN", "DamageFlyLw", "DamageFlyTop", "DamageFlyRoll", "LightGet", "HeavyGet",
    /*  94 */ "LightThrowF", "LightThrowB"]

  const ANIMATIONS_3: seq<string> := [
    /*  96 */ "LightThrowHi", "LightThrowLw", "LightThrowDash", "LightThrowDrop", "LightThrowAirF", "LightThrowAirB",
    /* 102 */ "LightThrowAirHi", "LightThrowAirLw", "HeavyThrowF", "HeavyThrowB", "HeavyThrowHi", "HeavyThrowLw",
    /* 108 */ "LightThrowF4", "LightThrowB4", "LightThrowHi4", "LightThrowLw4", "LightThrowAirF4", "LightThrowAirB4",
    /* 114 */ "LightThrowAirHi4", "LightThrowAirLw4", "HeavyThrowF4", "HeavyThrowB4", "HeavyThrowHi4", "HeavyThrowLw4",
    /* 120 */ "SwordSwing1", "SwordSwing3", "SwordSwing4", "SwordSwingDash", "BatSwing1", "BatSwing3",
    /* 126 */ "BatSwing4", "BatSwingDash"]

  const ANIMATIONS_4: seq<string> := [
    /* 128 */ "ParasolSwing1", "ParasolSwing3", "ParasolSwing4", "ParasolSwingDash", "HarisenSwing1", "HarisenSwing3",
    /* 134 */ "HarisenSwing4", "HarisenSwingDash", "StarRodSwing1", "StarRodSwing3", "StarRodSwing4", "StarRodSwingDash",
    /* 140 */ "LipStickSwing1", "LipStickSwing3", "LipStickSwing4", "LipStickSwingDash", "ItemParasolOpen", "ItemParasolFall",
    /* 146 */ "ItemParasolFallSpecial", "ItemParasolDamageFall", "LGunShoot", "LGunShootAir", "LGunShootEmpty", "LGunShootAirEmpty",
    /* 152 */ "FireFlowerShoot", "FireFlowerShootAir", "ItemScrew", "ItemScrewAir", "DamageScrew", "DamageScrewAir",
    /* 158 */ "ItemScopeStart", "ItemScopeRapid"]

  const ANIMATIONS_5: seq<string> := [
    /* 160 */ "ItemScopeFire", "ItemScopeEnd", "ItemScopeAirStart", "ItemScopeAirRapid", "ItemScopeAirFire", "ItemScopeAirEnd",
    /* 166 */ "ItemScopeStartEmpty", "ItemScopeRapidEmpty", "ItemScopeFireEmpty", "ItemScopeEndEmpty", "ItemScopeAirStartEmpty", "ItemScopeAirRapidEmpty",
    /* 172 */ "ItemScopeAirFireEmpty", "ItemScopeAirEndEmpty", "LiftWait", "LiftWalk1", "LiftWalk2", "LiftTurn",
    /* 178 */ "GuardOn", "Guard", "GuardOff", "GuardSetOff", "GuardReflect", "DownBoundU",
    /* 184 */ "DownWaitU", "DownDamageU", "DownStandU", "DownAttackU", "DownFowardU", "DownBackU",
    /* 190 */ "DownSpotU", "DownBoundD"]

  const ANIMATIONS_6: seq<string> := [
    /* 192 */ "DownWaitD", "DownDamageD", "DownStandD", "DownAttackD", "DownFowardD", "DownBackD",
    /* 198 */ "DownSpotD", "Passive", "PassiveStandF", "PassiveStandB", "PassiveWall", "PassiveWallJump",
    /* 204 */ "PassiveCeil", "ShieldBreakFly", "ShieldBreakFall", "ShieldBreakDownU", "ShieldBreakDownD", "ShieldBreakStandU",
    /* 210 */ "ShieldBreakStandD", "FuraFura", "Catch", "CatchPull", "CatchDash", "CatchDashPull",
    /* 216 */ "CatchWait", "CatchAttack", "CatchCut", "ThrowF", "ThrowB", "ThrowHi",
    /* 222 */ "ThrowLw", "CapturePulledHi"]

  const ANIMATIONS_7: seq<string> := [
    /* 224 */ "CaptureWaitHi", "CaptureDamageHi", "CapturePulledLw", "CaptureWaitLw", "CaptureDamageLw", "CaptureCut",
    /* 230 */ "CaptureJump", "CaptureNeck", "CaptureFoot", "EscapeF", "EscapeB", "Escape",
    /* 236 */ "EscapeAir", "ReboundStop", "Rebound", "ThrownF", "ThrownB", "ThrownHi",
    /* 242 */ "ThrownLw", "ThrownLwWomen", "Pass", "Ottotto", "OttottoWait", "FlyReflectWall",
    /* 248 */ "FlyReflectCeil", "StopWall", "StopCeil", "MissFoot", "CliffCatch", "CliffWait",
    /* 254 */ "CliffClimbSlow", "CliffClimbQuick"]

  const ANIMATIONS_8: seq<string> := [
    /* 256 */ "CliffAttackSlow", "CliffAttackQuick", "CliffEscapeSlow", "CliffEscapeQuick", "CliffJumpSlow1", "CliffJumpSlow2",
    /* 262 */ "CliffJumpQuick1", "CliffJumpQuick2", "AppealR", "AppealL", "ShoulderedWait", "ShoulderedWalkSlow",
    /* 268 */ "ShoulderedWalkMiddle", "ShoulderedWalkFast", "ShoulderedTurn", "ThrownFF", "ThrownFB", "ThrownFHi",
    /* 274 */ "ThrownFLw", "CaptureCaptain", "CaptureYoshi", "YoshiEgg", "CaptureKoopa", "CaptureDamageKoopa",
    /* 280 */ "CaptureWaitKoopa", "ThrownKoopaF", "ThrownKoopaB", "CaptureKoopaAir", "CaptureDamageKoopaAir", "CaptureWaitKoopaAir",
    /* 286 */ "ThrownKoopaAirF", "ThrownKoopaAirB"]

  const ANIMATIONS_9: seq<string> := [
    /* 288 */ "CaptureKirby", "CaptureWaitKirby", "ThrownKirbyStar", "ThrownCopyStar", "ThrownKirby", "BarrelWait",
    /* 294 */ "Bury", "BuryWait", "BuryJump", "DamageSong", "DamageSongWait", "DamageSongRv",
    /* 300 */ "DamageBind", "CaptureMewtwo", "CaptureMewtwoAir", "ThrownMewtwo", "ThrownMewtwoAir", "WarpStarJump",
    /* 306 */ "WarpStarFall", "HammerWait", "HammerWalk", "HammerTurn", "HammerKneeBend", "HammerFall",
    /* 312 */ "HammerJump", "HammerLanding", "KinokoGiantStart", "KinokoGiantStartAir", "KinokoGiantEnd", "KinokoGiantEndAir",
    /* 318 */ "KinokoSmallStart", "KinokoSmallStartAir"]

  const ANIMATIONS_10: seq<string> := [
    /* 320 */ "KinokoSmallEnd", "KinokoSmallEndAir", "Entry", "Entry", "Entry", "DamageIce",
    /* 326 */ "DamageIceJump", "CaptureMasterhand", "CapturedamageMasterhand", "CapturewaitMasterhand", "ThrownMasterhand", "CaptureKirbyYoshi",
    /* 332 */ "KirbyYoshiEgg", "CaptureLeadead", "CaptureLikelike", "DownReflect", "CaptureCrazyhand", "CapturedamageCrazyhand",
    /* 338 */ "CapturewaitCrazyhand", "ThrownCrazyhand", "BarrelCannonWait", "Wait1", "Wait2", "Wait3",
    /* 344 */ "Wait4", "SpecialAirNStart", "SpecialAirNLoop", "SpecialAirNEnd", "SpecialAirNEnd", "SpecialS1",
    /* 350 */ "SpecialS2Hi", "SpecialS2Lw"]

  const ANIMATIONS_11: seq<string> := [
    /* 352 */ "SpecialS3Hi", "SpecialS3S", "SpecialS3Lw", "ItemHammerMove", "ItemBlind", "DamageElec",
    /* 358 */ "SpecialAirS1", "FuraSleepLoop", "FuraSleepEnd", "WallDamage", "CliffWait1", "CliffWait2",
    /* 364 */ "SlipDown", "Slip", "SlipTurn", "SpecialHi", "SpecialAirHi", "SlipStand",
    /* 370 */ "SlipAttack", "SlipEscapeF", "SlipEscapeB", "AppealS", "Zitabata", "CaptureKoopaHit",
    /* 376 */ "ThrownKoopaEndF", "ThrownKoopaEndB", "CaptureKoopaAirHit", "ThrownKoopaAirEndF", "ThrownKoopaAirEndB", "ThrownKirbyDrinkSShot",
    /* 382 */ "ThrownKirbySpitSShot"]

  /** GetAnimationName: the listed name, or "" for any other id. */
  function GetAnimationName(animId: int): (r: string)
    ensures animId < 0 || animId > 382 || animId == 6 ==> r == ""
  {
    if 0 <= animId < |ANIMATION_NAMES| then ANIMATION_NAMES[animId] else ""
  }

  // ----- properties of the tables -----

  /** Every listed character has a name, so "" means exactly an unlisted id; id 14 is the placeholder. */
  lemma CharacterNameEmpty(characterId: int)
    ensures GetCharacterName(characterId) == "" <==> characterId < 0 || characterId > 25
    ensures GetCharacterName(14) == "Missing_Character"
  {
    if 0 <= characterId < |CHARACTER_NAMES| {
      assert |CHARACTER_NAMES[characterId]| > 0;
    }
  }

  /** Only Luigi has a character-specific animation. */
  lemma OnlyLuigiRemapped(characterId: int, animationName: string)
    ensures GetCharacterSpecificMapping(GetCharacterName(characterId), animationName).Some?
            <==> characterId == 7 && animationName == "Wait4"
  {
  }

  /** The stage fallback: an id names Final Destination exactly when it is 32 or unlisted. */
  lemma StageFallback(stageId: int)
    ensures GetStageName(stageId) == "Final_Destination" <==>
            stageId != 2 && stageId != 3 && stageId != 8 && stageId != 28 && stageId != 31
  {
  }

  /** The three entry states (start, wait, end) all play the one Entry clip. */
  lemma EntryAnimations()
    ensures GetAnimationName(322) == "Entry" && GetAnimationName(323) == "Entry" && GetAnimationName(324) == "Entry"
  {
  }

  /** The table is not one-to-one: some clips are named by two ids. */
  lemma SharedAnimationNames()
    ensures GetAnimationName(14) == GetAnimationName(341) == "Wait1"
    ensures GetAnimationName(24) == GetAnimationName(42) == "Landing"
    ensures GetAnimationName(347) == GetAnimationName(348) == "SpecialAirNEnd"
  {
  }

  /** Luigi's Wait4 state (id 344) is the one that gets a character-specific clip. */
  lemma LuigiWait4()
    ensures GetCharacterSpecificMapping(GetCharacterName(7), GetAnimationName(344)) == Some("SpecialSStart")
  {
  }
}
