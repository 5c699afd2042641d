/**
 * ToggleAnimationComponent: sequences the open and close animation players
 * of an expandable component. A player is created lazily on first use,
 * a started player is left alone, and starting one direction while the
 * other is running hands the other's progress over (as `1 - position`)
 * and drops the other player.
 */
module ToggleAnimation {
  import opened Base

  /** The callback a player runs when it finishes; only its identity matters here. */
  datatype Callback = Callback(name: string)

  /**
   * An animation player as the sequencer sees it: whether it has started,
   * the position it was last set to, and the done handler installed when
   * it was created.
   */
  datatype Player = Player(started: bool, position: real, onDone: Callback)

  /** The two players after a step, from the point of view of the direction being played. */
  datatype Players = Players(own: Option<Player>, other: Option<Player>)

  predicate Started(p: Option<Player>) {
    p.Some? && p.value.started
  }

  predicate InUnitRange(p: Option<Player>) {
    p.None? || 0.0 <= p.value.position <= 1.0
  }

  /** At most one of the two players has started, and both positions are in [0, 1]. */
  predicate Consistent(own: Option<Player>, other: Option<Player>) {
    !(Started(own) && Started(other)) && InUnitRange(own) && InUnitRange(other)
  }

  /** A freshly created player: not started, at position 0, finishing with `callback`. */
  function NewPlayer(callback: Callback): Player {
    Player(false, 0.0, callback)
  }

  /**
   * One call of `playOpenAnimation` (or, with the roles swapped,
   * `playCloseAnimation`): `own` is the player of the direction being
   * played, `other` the reverse one, and `otherPosition` the position the
   * reverse player reports when asked.
   */
  function PlayStep(hasTarget: bool, own: Option<Player>, other: Option<Player>, callback: Callback,
                    otherPosition: real): (r: Players)
    ensures !hasTarget ==> r == Players(own, other)
    ensures hasTarget ==> Started(r.own)
    ensures hasTarget && own.Some? ==> r.own.value.onDone == own.value.onDone
    ensures hasTarget && own.None? ==> r.own.value.onDone == callback
    ensures hasTarget && Started(own) ==> r == Players(own, other)
    ensures hasTarget && !Started(own) && Started(other) ==>
      r.other.None? && r.own.value.position == 1.0 - otherPosition
    ensures hasTarget && !Started(own) && !Started(other) ==>
      r.other == other && r.own.value.position == (if own.Some? then own.value.position else 0.0)
  {
    if !hasTarget then Players(own, other)
    else
      var player := if own.Some? then own.value else NewPlayer(callback);
      if player.started then Players(Some(player), other)
      else if Started(other) then Players(Some(player.(started := true, position := 1.0 - otherPosition)), None)
      else Players(Some(player.(started := true)), other)
  }

  /** A step keeps at most one player started and every position in [0, 1]. */
  lemma PlayStepConsistent(hasTarget: bool, own: Option<Player>, other: Option<Player>, callback: Callback,
                           otherPosition: real)
    requires Consistent(own, other) && 0.0 <= otherPosition <= 1.0
    ensures Consistent(PlayStep(hasTarget, own, other, callback, otherPosition).own,
                       PlayStep(hasTarget, own, other, callback, otherPosition).other)
  {
  }

  /** Playing twice in a row is the same as playing once: the second call finds its player started. */
  lemma PlayStepIdempotent(hasTarget: bool, own: Option<Player>, other: Option<Player>, callback: Callback,
                           otherPosition: real, callback2: Callback, otherPosition2: real)
    ensures var r := PlayStep(hasTarget, own, other, callback, otherPosition);
      PlayStep(hasTarget, r.own, r.other, callback2, otherPosition2) == r
  {
  }

  class ToggleAnimationComponent {
    var openPlayer: Option<Player>
    var closePlayer: Option<Player>
    /** The done callbacks run so far, in order. */
    var callbackLog: seq<Callback>

    predicate Valid()
      reads this
    {
      Consistent(openPlayer, closePlayer)
    }

    /** Both players start out absent. */
    constructor()
      ensures Valid() && openPlayer.None? && closePlayer.None? && callbackLog == []
    {
      openPlayer := None;
      closePlayer := None;
      callbackLog := [];
    }

    /**
     * `playOpenAnimation(targetElement, callback)`: `hasTarget` says whether
     * a target element was given; `closePosition` is what the close player
     * reports as its position.
     */
    method PlayOpenAnimation(hasTarget: bool, callback: Callback, closePosition: real)
      requires Valid() && 0.0 <= closePosition <= 1.0
      modifies this`openPlayer, this`closePlayer
      ensures Valid()
      ensures Players(openPlayer, closePlayer) ==
        PlayStep(hasTarget, old(openPlayer), old(closePlayer), callback, closePosition)
    {
      if !hasTarget {
        return;
      }
      if openPlayer.None? {
        openPlayer := Some(NewPlayer(callback));
      }
      if openPlayer.value.started {
        return;
      }
      if closePlayer.Some? && closePlayer.value.started {
        var position := 1.0 - closePosition;
        closePlayer := None;
        openPlayer := Some(openPlayer.value.(position := position));
      }
      openPlayer := Some(openPlayer.value.(started := true));
    }

    /** `playCloseAnimation`: the mirror of `PlayOpenAnimation`, with the two players' roles swapped. */
    method PlayCloseAnimation(hasTarget: bool, callback: Callback, openPosition: real)
      requires Valid() && 0.0 <= openPosition <= 1.0
      modifies this`openPlayer, this`closePlayer
      ensures Valid()
      ensures Players(closePlayer, openPlayer) ==
        PlayStep(hasTarget, old(closePlayer), old(openPlayer), callback, openPosition)
    {
      if !hasTarget {
        return;
      }
      if closePlayer.None? {
        closePlayer := Some(NewPlayer(callback));
      }
      if closePlayer.value.started {
        return;
      }
      if openPlayer.Some? && openPlayer.value.started {
        var position := 1.0 - openPosition;
        openPlayer := None;
        closePlayer := Some(closePlayer.value.(position := position));
      }
      closePlayer := Some(closePlayer.value.(started := true));
    }

    /** The open player's done handler: run the callback installed at creation, then reset the player. */
    method OpenDone()
      requires Valid() && Started(openPlayer)
      modifies this`openPlayer, this`callbackLog
      ensures Valid()
      ensures callbackLog == old(callbackLog) + [old(openPlayer).value.onDone]
      ensures openPlayer == Some(NewPlayer(old(openPlayer).value.onDone))
    {
      callbackLog := callbackLog + [openPlayer.value.onDone];
      openPlayer := Some(NewPlayer(openPlayer.value.onDone));
    }

    /** The close player's done handler. */
    method CloseDone()
      requires Valid() && Started(closePlayer)
      modifies this`closePlayer, this`callbackLog
      ensures Valid()
      ensures callbackLog == old(callbackLog) + [old(closePlayer).value.onDone]
      ensures closePlayer == Some(NewPlayer(old(closePlayer).value.onDone))
    {
      callbackLog := callbackLog + [closePlayer.value.onDone];
      closePlayer := Some(NewPlayer(closePlayer.value.onDone));
    }
  }
}
