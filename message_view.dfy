/**
 * One rendered message: whether it is the user's own, the reaction strip
 * under it, and the touch gestures on its bubble. Times are milliseconds
 * and positions pixels, passed in as integers.
 */
module MessageView {
  import opened Wrappers
  import opened ChatApi
  import ChatContextModel

  /** `isSent`: the message was written by the signed-in user. */
  predicate IsSent(msg: ChatMessage, userId: string)
  {
    msg.senderId == userId
  }

  /** A message shown as the user's own never raises an unread count. */
  lemma SentMessageNeverUnread(msg: ChatMessage, userId: string, currentRoom: Option<string>)
    requires IsSent(msg, userId)
    ensures !ChatContextModel.FromOther(msg, Some(userId))
    ensures !ChatContextModel.CountsAsUnread(msg, currentRoom, Some(userId))
  {
  }

  // ---------------------------------------------------------------------
  // Reaction aggregation
  // ---------------------------------------------------------------------

  /** An emoji and how many reactions carry it, in the order the emojis first occur. */
  type Tally = seq<(string, nat)>

  /** How many reactions carry the emoji. */
  function CountOf(rs: seq<Reaction>, emoji: string): nat
  {
    if |rs| == 0 then 0
    else CountOf(rs[..|rs| - 1], emoji) + (if rs[|rs| - 1].emoji == emoji then 1 else 0)
  }

  predicate HasKey(t: Tally, emoji: string)
  {
    exists i :: 0 <= i < |t| && t[i].0 == emoji
  }

  predicate KeysUnique(t: Tally)
  {
    forall i, j :: 0 <= i < j < |t| ==> t[i].0 != t[j].0
  }

  /** The count the tally holds for the emoji, 0 when it has none. */
  function Lookup(t: Tally, emoji: string): nat
  {
    if |t| == 0 then 0 else if t[0].0 == emoji then t[0].1 else Lookup(t[1..], emoji)
  }

  function Total(t: Tally): nat
  {
    if |t| == 0 then 0 else t[0].1 + Total(t[1..])
  }

  predicate Positive(t: Tally)
  {
    forall i :: 0 <= i < |t| ==> t[i].1 >= 1
  }

  /** With unique keys, the count looked up for an entry's emoji is that entry's count. */
  lemma {:induction false} LookupAt(t: Tally, i: nat)
    requires KeysUnique(t) && i < |t|
    ensures Lookup(t, t[i].0) == t[i].1
  {
    if i > 0 {
      assert t[0].0 != t[i].0;
      assert t[1..][i - 1] == t[i];
      LookupAt(t[1..], i - 1);
    }
  }

  /** With positive counts an emoji has an entry exactly when its looked-up count is positive. */
  lemma {:induction false} HasKeyIffLookup(t: Tally, x: string)
    requires Positive(t)
    ensures HasKey(t, x) <==> Lookup(t, x) > 0
  {
    if |t| > 0 {
      HasKeyIffLookup(t[1..], x);
      if HasKey(t, x) && t[0].0 != x {
        var i :| 0 <= i < |t| && t[i].0 == x;
        assert t[1..][i - 1].0 == x;
      }
      if HasKey(t[1..], x) {
        var i :| 0 <= i < |t[1..]| && t[1..][i].0 == x;
        assert t[i + 1].0 == x;
      }
    }
  }

  /** One step of the `reduce`: `acc[emoji] = (acc[emoji] || 0) + 1`. */
  function Step(t: Tally, emoji: string): (r: Tally)
    ensures forall x :: Lookup(r, x) == Lookup(t, x) + (if x == emoji then 1 else 0)
    ensures Total(r) == Total(t) + 1
    ensures Positive(t) ==> Positive(r)
    ensures KeysUnique(t) && Positive(t) ==> KeysUnique(r)
  {
    if |t| == 0 then [(emoji, 1)]
    else if t[0].0 == emoji then
      var r := [(emoji, t[0].1 + 1)] + t[1..];
      assert r[1..] == t[1..];
      r
    else
      var rest := Step(t[1..], emoji);
      var r := [t[0]] + rest;
      assert r[1..] == rest;
      assert KeysUnique(t) && Positive(t) ==> KeysUnique(r) by {
        if KeysUnique(t) && Positive(t) {
          TailLacksHead(t);
          HasKeyIffLookup(t[1..], t[0].0);
          ConsKeysUnique(t[0], rest);
        }
      }
      r
  }

  /** With unique keys the first emoji does not occur again. */
  lemma TailLacksHead(t: Tally)
    requires KeysUnique(t) && |t| > 0
    ensures !HasKey(t[1..], t[0].0) && KeysUnique(t[1..])
  {
    forall i | 0 <= i < |t[1..]| ensures t[1..][i].0 != t[0].0 {
      assert t[1..][i] == t[i + 1];
    }
  }

  /** An entry whose emoji the rest lacks can head a tally with unique keys. */
  lemma ConsKeysUnique(e: (string, nat), rest: Tally)
    requires KeysUnique(rest) && Positive(rest) && Lookup(rest, e.0) == 0
    ensures KeysUnique([e] + rest)
  {
    HasKeyIffLookup(rest, e.0);
    var r := [e] + rest;
    forall i, j | 0 <= i < j < |r| ensures r[i].0 != r[j].0 {
      assert r[j] == rest[j - 1];
      if i > 0 {
        assert r[i] == rest[i - 1];
      }
    }
  }

  /** The `reduce` over all the reactions. */
  function Aggregate(rs: seq<Reaction>): (t: Tally)
    ensures forall x :: Lookup(t, x) == CountOf(rs, x)
    ensures forall x :: HasKey(t, x) <==> CountOf(rs, x) > 0
    ensures KeysUnique(t) && Positive(t)
    ensures Total(t) == |rs|
  {
    if |rs| == 0 then []
    else
      var t := Step(Aggregate(rs[..|rs| - 1]), rs[|rs| - 1].emoji);
      assert forall x :: HasKey(t, x) <==> CountOf(rs, x) > 0 by {
        forall x ensures HasKey(t, x) <==> CountOf(rs, x) > 0 {
          HasKeyIffLookup(t, x);
        }
      }
      t
  }

  /** Every entry of the strip shows exactly the number of reactions with its emoji; nothing is deduplicated per user. */
  lemma AggregateEntry(rs: seq<Reaction>, i: nat)
    requires i < |Aggregate(rs)|
    ensures Aggregate(rs)[i].1 == CountOf(rs, Aggregate(rs)[i].0) >= 1
  {
    LookupAt(Aggregate(rs), i);
  }

  /** The strip under a message: shown only when `reactions` exists and is not empty. */
  function ReactionStrip(reactions: Option<seq<Reaction>>): (r: Option<Tally>)
    ensures r.Some? <==> reactions.Some? && |reactions.value| > 0
    ensures r.Some? ==> |r.value| >= 1 && Total(r.value) == |reactions.value|
  {
    if reactions.Some? && |reactions.value| > 0 then
      var t := Aggregate(reactions.value);
      assert |t| >= 1 by {
        assert CountOf(reactions.value, reactions.value[|reactions.value| - 1].emoji) > 0;
      }
      Some(t)
    else None
  }

  // ---------------------------------------------------------------------
  // Touch gestures
  // ---------------------------------------------------------------------

  const Heart: string := "\U{2764}\U{FE0F}"
  const DoubleTapWindow: int := 300
  const TapDuration: int := 200
  const MoveTolerance: int := 10
  const SwipeDistance: int := 50
  const SwipeDrift: int := 30

  function Abs(x: int): (r: nat)
    ensures r == x || r == -x
  {
    if x < 0 then -x else x
  }

  /** `timeSinceLastTap < 300 && touchDuration < 200`. */
  predicate IsDoubleTap(sinceLastTap: int, duration: int)
  {
    sinceLastTap < DoubleTapWindow && duration < TapDuration
  }

  /** A move of more than 10 pixels along either axis. */
  predicate CancelsLongPress(dx: int, dy: int)
  {
    Abs(dx) > MoveTolerance || Abs(dy) > MoveTolerance
  }

  /** More than 50 pixels to the right while drifting fewer than 30 vertically. */
  predicate IsSwipeRight(dx: int, dy: int)
  {
    Abs(dx) > SwipeDistance && Abs(dy) < SwipeDrift && dx > 0
  }

  /** Every recognised swipe is also a move that cancels the long press. */
  lemma SwipeCancelsLongPress(dx: int, dy: int)
    requires IsSwipeRight(dx, dy)
    ensures CancelsLongPress(dx, dy)
  {
  }

  /** The tap timestamp after a touch ends: reset after a heart, the touch's end time otherwise. */
  function NextLastTap(lastTap: int, now: int, duration: int): int
  {
    if IsDoubleTap(now - lastTap, duration) then 0 else now
  }

  /** After a heart the next tap sends none (the clock reads at least 300): three quick taps send one heart. */
  lemma NoHeartRightAfterHeart(lastTap: int, now1: int, d1: int, now2: int, d2: int)
    requires IsDoubleTap(now1 - lastTap, d1) && now2 >= DoubleTapWindow
    ensures !IsDoubleTap(now2 - NextLastTap(lastTap, now1, d1), d2)
  {
  }

  /** The gesture state of one message bubble. */
  class MessageBubble {
    const messageId: string
    var touchStart: int
    var startX: int
    var startY: int
    var lastTap: int
    var longPressPending: bool
    var isLongPressing: bool
    var showPicker: bool

    constructor (messageId: string)
      ensures this.messageId == messageId && lastTap == 0
      ensures !longPressPending && !isLongPressing && !showPicker
    {
      this.messageId := messageId;
      touchStart, startX, startY, lastTap := 0, 0, 0, 0;
      longPressPending, isLongPressing, showPicker := false, false, false;
    }

    /** `handleReaction`: the reaction goes out for this message and the picker closes. */
    method HandleReaction(emoji: string) returns (sent: (string, string))
      modifies this
      ensures sent == (messageId, emoji) && !showPicker
      ensures touchStart == old(touchStart) && startX == old(startX) && startY == old(startY) && lastTap == old(lastTap)
      ensures longPressPending == old(longPressPending) && isLongPressing == old(isLongPressing)
    {
      showPicker := false;
      sent := (messageId, emoji);
    }

    /** `handleTouchStart`: record time and place and arm the long-press timer. */
    method TouchStart(now: int, x: int, y: int)
      modifies this
      ensures touchStart == now && startX == x && startY == y
      ensures longPressPending && !isLongPressing
      ensures lastTap == old(lastTap) && showPicker == old(showPicker)
    {
      touchStart, startX, startY := now, x, y;
      isLongPressing := false;
      longPressPending := true;
    }

    /** The long-press timer fires: the bubble is pressed and the picker opens. */
    method LongPressElapsed()
      modifies this
      ensures old(longPressPending) ==> isLongPressing && showPicker && !longPressPending
      ensures !old(longPressPending) ==> isLongPressing == old(isLongPressing) && showPicker == old(showPicker) && !longPressPending
      ensures touchStart == old(touchStart) && startX == old(startX) && startY == old(startY) && lastTap == old(lastTap)
    {
      if longPressPending {
        isLongPressing := true;
        showPicker := true;
        longPressPending := false;
      }
    }

    /** `handleTouchMove`: a move past the tolerance cancels the long press; reports a swipe right. */
    method TouchMove(x: int, y: int) returns (swipe: bool)
      modifies this
      ensures swipe <==> IsSwipeRight(x - startX, y - startY)
      ensures CancelsLongPress(x - startX, y - startY) ==> !longPressPending && !isLongPressing
      ensures !CancelsLongPress(x - startX, y - startY) ==>
        longPressPending == old(longPressPending) && isLongPressing == old(isLongPressing)
      ensures touchStart == old(touchStart) && startX == old(startX) && startY == old(startY)
      ensures lastTap == old(lastTap) && showPicker == old(showPicker)
    {
      var dx, dy := Abs(x - startX), Abs(y - startY);
      if dx > MoveTolerance || dy > MoveTolerance {
        longPressPending := false;
        isLongPressing := false;
      }
      swipe := dx > SwipeDistance && dy < SwipeDrift && x > startX;
      if swipe {
        longPressPending := false;
      }
    }

    /** `handleTouchEnd`: disarm the timer; a double tap sends a heart and resets the tap clock. */
    method TouchEnd(now: int) returns (heart: Option<(string, string)>)
      modifies this
      ensures heart.Some? <==> IsDoubleTap(now - old(lastTap), now - touchStart)
      ensures heart.Some? ==> heart.value == (messageId, Heart) && !showPicker
      ensures heart.None? ==> showPicker == old(showPicker)
      ensures lastTap == NextLastTap(old(lastTap), now, now - touchStart)
      ensures !longPressPending && !isLongPressing
      ensures touchStart == old(touchStart) && startX == old(startX) && startY == old(startY)
    {
      var duration := now - touchStart;
      longPressPending := false;
      var since := now - lastTap;
      if since < DoubleTapWindow && duration < TapDuration {
        var sent := HandleReaction(Heart);
        heart := Some(sent);
        lastTap := 0;
      } else {
        heart := None;
        lastTap := now;
      }
      isLongPressing := false;
    }
  }
}
