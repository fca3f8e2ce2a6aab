/**
 * `PlayingFragment`: seek targets of the transport controls, the dispatch of control-row
 * actions, the key-intercept decision and the starting position once playback is prepared.
 *
 * The player is reduced to its current position and content duration; a `seekTo(t)` call is
 * modelled as moving the position to exactly `t`. Player preparation, the glue host, the
 * overlay work-around and navigation are not modelled beyond the effect tags below.
 */
module Playback {
  import opened Wrappers
  import opened MediaModels
  import FeedParser
  import Json

  /** `SKIP_PLAYBACK_MILLIS`: `TimeUnit.SECONDS.toMillis(10)`. */
  const SKIP_PLAYBACK_MILLIS: int := 10 * 1000

  /** `KeyEvent` constants of the Android framework. */
  const KEYCODE_BACK: int := 4
  const KEYCODE_DPAD_LEFT: int := 21
  const KEYCODE_DPAD_RIGHT: int := 22
  const ACTION_DOWN: int := 0

  /** The target `skipForward(millis)` passes to `seekTo`: never past a known duration. */
  function ForwardTarget(position: int, contentDuration: int, millis: int): (t: int)
    ensures contentDuration > 0 ==> t <= contentDuration && t <= position + millis
    ensures contentDuration > 0 ==> t == contentDuration || t == position + millis
    ensures contentDuration <= 0 ==> t == position + millis
    ensures contentDuration > 0 && millis >= 0 && position <= contentDuration ==> position <= t
  {
    if contentDuration > 0 then
      if contentDuration < position + millis then contentDuration else position + millis
    else position + millis
  }

  /** The target `skipBackward(millis)` passes to `seekTo`: never below zero. */
  function BackwardTarget(position: int, millis: int): (t: int)
    ensures t >= 0 && t >= position - millis
    ensures t == 0 || t == position - millis
    ensures millis >= 0 && position >= 0 ==> t <= position
  {
    if 0 < position - millis then position - millis else 0
  }

  /** Skipping back and then forward by the same amount returns to the start, when neither
      skip was clamped; likewise forward then back. */
  lemma SkipsUndoEachOther(position: int, contentDuration: int, millis: int)
    requires contentDuration > 0 && 0 <= millis
    ensures millis <= position <= contentDuration ==>
      ForwardTarget(BackwardTarget(position, millis), contentDuration, millis) == position
    ensures 0 <= position && position + millis <= contentDuration ==>
      BackwardTarget(ForwardTarget(position, contentDuration, millis), millis) == position
  {
  }

  /** The control-row actions: the three this glue adds, and every other one (play/pause, …). */
  datatype PlaybackAction = RewindAction | FastForwardAction | ClosedCaptioningAction | OtherAction(id: int)

  /** What `onActionClicked` does with an action. */
  datatype ActionEffect = SkipBackward | SkipForward | DelegateToGlue

  function ActionEffectOf(action: PlaybackAction): (e: ActionEffect)
    ensures e == SkipBackward <==> action == RewindAction
    ensures e == SkipForward <==> action == FastForwardAction
    ensures e == DelegateToGlue <==> !(action == RewindAction || action == FastForwardAction)
  {
    match action
    case RewindAction => SkipBackward
    case FastForwardAction => SkipForward
    case _ => DelegateToGlue
  }

  /** What the key-intercept listener does besides returning whether it consumed the key. */
  datatype KeyEffect = NoKeyEffect | PopBackStack | SkipForwardKey | SkipBackwardKey

  datatype KeyOutcome = KeyOutcome(consumed: bool, effect: KeyEffect)

  /** The key-intercept decision: only a key press while the controls overlay is hidden is
      handled, and only BACK, DPAD_RIGHT and DPAD_LEFT. */
  function InterceptKey(overlayVisible: bool, keyCode: int, action: int): (r: KeyOutcome)
    ensures overlayVisible ==> r == KeyOutcome(false, NoKeyEffect)
    ensures r.consumed <==> r.effect != NoKeyEffect
    ensures r.consumed <==>
      !overlayVisible && action == ACTION_DOWN && keyCode in {KEYCODE_BACK, KEYCODE_DPAD_RIGHT, KEYCODE_DPAD_LEFT}
    ensures r.effect == PopBackStack <==> !overlayVisible && action == ACTION_DOWN && keyCode == KEYCODE_BACK
    ensures r.effect == SkipForwardKey <==> !overlayVisible && action == ACTION_DOWN && keyCode == KEYCODE_DPAD_RIGHT
    ensures r.effect == SkipBackwardKey <==> !overlayVisible && action == ACTION_DOWN && keyCode == KEYCODE_DPAD_LEFT
  {
    if overlayVisible then KeyOutcome(false, NoKeyEffect)
    else if keyCode == KEYCODE_BACK && action == ACTION_DOWN then KeyOutcome(true, PopBackStack)
    else if keyCode == KEYCODE_DPAD_RIGHT && action == ACTION_DOWN then KeyOutcome(true, SkipForwardKey)
    else if keyCode == KEYCODE_DPAD_LEFT && action == ACTION_DOWN then KeyOutcome(true, SkipBackwardKey)
    else KeyOutcome(false, NoKeyEffect)
  }

  /** `metadata.playbackPositionMillis ?: 0`. */
  function StartingPosition(metadata: TvMediaMetadata): (p: int)
    ensures metadata.playbackPositionMillis.Some? ==> p == metadata.playbackPositionMillis.value
    ensures metadata.playbackPositionMillis.None? ==> p == 0
  {
    metadata.playbackPositionMillis.GetOr(0)
  }

  /** Every record the feed parser produces starts playing from the beginning. */
  lemma ParsedRecordsStartAtZero(doc: Json.Json, r: FeedParser.FeedParseResult)
    requires FeedParser.ParseMediaFeedSpec(doc) == Success(r)
    ensures forall m :: m in r.metadata ==> StartingPosition(m) == 0
  {
    FeedParser.ParsedRecordsCarryState(doc, r);
  }

  /** `MediaPlayerGlue` together with the player state it reads and seeks. */
  class PlayerGlue {
    var position: int
    var contentDuration: int

    /** The position lies in the content: not negative, and not past a known duration. */
    ghost predicate InRange()
      reads this
    {
      0 <= position && (contentDuration > 0 ==> position <= contentDuration)
    }

    constructor (position: int, contentDuration: int)
      ensures this.position == position && this.contentDuration == contentDuration
    {
      this.position := position;
      this.contentDuration := contentDuration;
    }

    /** `skipForward(millis)`. */
    method SkipForward(millis: int)
      modifies this
      ensures position == ForwardTarget(old(position), old(contentDuration), millis)
      ensures contentDuration == old(contentDuration)
      ensures old(InRange()) && millis >= 0 ==> InRange() && old(position) <= position
    {
      position := ForwardTarget(position, contentDuration, millis);
    }

    /** `skipBackward(millis)`. */
    method SkipBackward(millis: int)
      modifies this
      ensures position == BackwardTarget(old(position), millis)
      ensures contentDuration == old(contentDuration)
      ensures old(InRange()) && millis >= 0 ==> InRange() && position <= old(position)
    {
      position := BackwardTarget(position, millis);
    }

    /** `onActionClicked(action)`: rewind and fast-forward skip by the default amount; any other
        action goes to the superclass, whose effect on the player is not modelled. */
    method OnActionClicked(action: PlaybackAction) returns (effect: ActionEffect)
      modifies this
      ensures effect == ActionEffectOf(action)
      ensures contentDuration == old(contentDuration)
      ensures position == match effect
        case SkipBackward => BackwardTarget(old(position), SKIP_PLAYBACK_MILLIS)
        case SkipForward => ForwardTarget(old(position), old(contentDuration), SKIP_PLAYBACK_MILLIS)
        case DelegateToGlue => old(position)
    {
      effect := ActionEffectOf(action);
      match effect {
        case SkipBackward => SkipBackward(SKIP_PLAYBACK_MILLIS);
        case SkipForward => SkipForward(SKIP_PLAYBACK_MILLIS);
        case DelegateToGlue =>
      }
    }

    /** The key-intercept listener: returns whether the key was consumed and which navigation
        or seek it caused; only the two DPAD keys move the position. */
    method OnKeyIntercept(overlayVisible: bool, keyCode: int, action: int) returns (outcome: KeyOutcome)
      modifies this
      ensures outcome == InterceptKey(overlayVisible, keyCode, action)
      ensures contentDuration == old(contentDuration)
      ensures position == match outcome.effect
        case SkipForwardKey => ForwardTarget(old(position), old(contentDuration), SKIP_PLAYBACK_MILLIS)
        case SkipBackwardKey => BackwardTarget(old(position), SKIP_PLAYBACK_MILLIS)
        case _ => old(position)
      ensures overlayVisible ==> position == old(position)
    {
      outcome := InterceptKey(overlayVisible, keyCode, action);
      if outcome.effect == SkipForwardKey {
        SkipForward(SKIP_PLAYBACK_MILLIS);
      } else if outcome.effect == SkipBackwardKey {
        SkipBackward(SKIP_PLAYBACK_MILLIS);
      }
    }

    /** `onPreparedStateChanged`: once prepared, seek to the stored position or to 0. */
    method OnPreparedStateChanged(prepared: bool, metadata: TvMediaMetadata)
      modifies this
      ensures position == if prepared then StartingPosition(metadata) else old(position)
      ensures contentDuration == old(contentDuration)
    {
      if prepared {
        position := StartingPosition(metadata);
      }
    }
  }
}
