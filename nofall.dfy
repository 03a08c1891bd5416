/**
 * NoFall: while enabled it tells the server, every tick, that the player is
 * on the ground, so that no fall damage is taken. Its HUD status and its
 * per-tick decision are functions of a few player flags and of its one
 * setting, "Allow elytra".
 */
module NoFall {
  import opened Options

  const NAME := "NoFall"
  /** The status shown next to the name while the hack has nothing to do. */
  const PAUSED := "(paused)"
  /** The "Allow elytra" checkbox starts unchecked. */
  const ALLOW_ELYTRA_DEFAULT := false

  /**
   * The player flags the hack looks at. `fallingFast` stands for the
   * vertical velocity being below -0.5 blocks per tick.
   */
  datatype Player = Player(creative: bool, fallFlying: bool, sneaking: bool, fallingFast: bool)

  /**
   * `getStatusInfo`: nothing without a player; "(paused)" while gliding with
   * an elytra that the setting does not allow, or in creative mode.
   */
  function StatusInfo(player: Option<Player>, allowElytra: bool): (status: Option<string>)
    ensures player.None? ==> status == None
    ensures player.Some? ==>
              (status == Some(PAUSED) <==> (player.value.fallFlying && !allowElytra) || player.value.creative)
    ensures status == None || status == Some(PAUSED)
  {
    match player
    case None => None
    case Some(p) =>
      if p.fallFlying && !allowElytra then Some(PAUSED)
      else if p.creative then Some(PAUSED)
      else None
  }

  /**
   * The decision `onUpdate` takes each tick: whether it sends one
   * on-ground packet. Nothing in creative mode (there is no fall damage),
   * nothing while gliding unless allowed, and nothing while gliding,
   * sneaking and too slow to be hurt.
   */
  function SendsOnGroundPacket(player: Player, allowElytra: bool): (send: bool)
    ensures player.creative ==> !send
    ensures player.fallFlying && !allowElytra ==> !send
    ensures player.fallFlying && player.sneaking && !player.fallingFast ==> !send
    ensures send <==> !player.creative
                      && (!player.fallFlying || (allowElytra && (!player.sneaking || player.fallingFast)))
  {
    if player.creative then false
    else if player.fallFlying && !allowElytra then false
    else if player.fallFlying && player.sneaking && !player.fallingFast then false
    else true
  }

  /** A hack that shows "(paused)" sends nothing. */
  lemma PausedSendsNothing(player: Player, allowElytra: bool)
    requires StatusInfo(Some(player), allowElytra) == Some(PAUSED)
    ensures !SendsOnGroundPacket(player, allowElytra)
  {
  }

  /** Without a status, the hack sends its packet unless it is braking a glide. */
  lemma UnpausedSends(player: Player, allowElytra: bool)
    requires StatusInfo(Some(player), allowElytra) == None
    ensures SendsOnGroundPacket(player, allowElytra)
            <==> !(player.fallFlying && player.sneaking && !player.fallingFast)
  {
  }

  /**
   * The status does not tell the whole story: an allowed glide while
   * sneaking slowly shows no "(paused)", yet sends nothing.
   */
  lemma SlowSneakingGlideNotShown()
    ensures var p := Player(false, true, true, false);
            StatusInfo(Some(p), true) == None && !SendsOnGroundPacket(p, true)
  {
  }
}
