/**
 The message window of the diagnostics program: a ring of lines in which the newest message
 overwrites the oldest, redrawn with every message.
 */
module DebugWindow {
  import opened Ring

  const MAX_LINE_BUFFER := 255
  const MAX_LINES := 128

  /** What of a message fits a line buffer. */
  function Cut(msg: string): string {
    if |msg| > MAX_LINE_BUFFER then msg[..MAX_LINE_BUFFER] else msg
  }

  /** A message that fits is kept whole; of a longer one a line buffer's worth is kept, from its
      beginning. */
  lemma CutKeeps(msg: string)
    ensures |msg| <= 255 ==> Cut(msg) == msg
    ensures |msg| > 255 ==> |Cut(msg)| == 255 && Cut(msg) <= msg
  {
  }

  /** The newest messages, at most `max` of them. */
  function Latest(msgs: seq<string>, max: nat): (r: seq<string>)
    ensures |r| <= max && |r| <= |msgs|
  {
    if |msgs| <= max then msgs else msgs[|msgs| - max..]
  }

  /** What the window shows after these messages, each pushed into what was shown before. */
  function After(shown: seq<string>, msgs: seq<string>, max: nat): seq<string>
    decreases |msgs|
  {
    if msgs == [] then shown else After(Latest(shown + [Cut(msgs[0])], max), msgs[1..], max)
  }

  function AllCut(msgs: seq<string>): (r: seq<string>)
    ensures |r| == |msgs|
  {
    seq(|msgs|, i requires 0 <= i < |msgs| => Cut(msgs[i]))
  }

  /** Forgetting messages early does not change which are the newest. */
  lemma LatestOfLatest(a: seq<string>, b: seq<string>, max: nat)
    ensures Latest(Latest(a, max) + b, max) == Latest(a + b, max)
  {
    var n := |a + b|;
    if |a| > max {
      assert Latest(a, max) + b == (a + b)[|a| - max..];
      if n - max >= |a| - max {
        assert (a + b)[|a| - max..][|b|..] == (a + b)[n - max..];
      }
    }
  }

  lemma LatestPush(shown: seq<string>, text: string, max: nat)
    requires |shown| <= max && max > 0
    ensures Latest(shown + [text], max) == if |shown| < max then shown + [text] else shown[1..] + [text]
  {
  }

  lemma CutFirst(early: seq<string>, msgs: seq<string>)
    requires msgs != []
    ensures early + AllCut(msgs) == (early + [Cut(msgs[0])]) + AllCut(msgs[1..])
  {
  }

  lemma {:induction false} ShowsMore(early: seq<string>, msgs: seq<string>, max: nat)
    ensures After(Latest(early, max), msgs, max) == Latest(early + AllCut(msgs), max)
    decreases |msgs|
  {
    if msgs == [] {
      assert early + AllCut(msgs) == early;
    } else {
      LatestOfLatest(early, [Cut(msgs[0])], max);
      ShowsMore(early + [Cut(msgs[0])], msgs[1..], max);
      CutFirst(early, msgs);
    }
  }

  /** After any sequence of messages the window shows the newest of them, in order. */
  lemma ShowsLatest(msgs: seq<string>, max: nat)
    ensures After([], msgs, max) == Latest(AllCut(msgs), max)
  {
    ShowsMore([], msgs, max);
    assert [] + AllCut(msgs) == AllCut(msgs);
  }

  lemma NothingCut(msgs: seq<string>)
    requires forall i :: 0 <= i < |msgs| ==> |msgs[i]| <= 255
    ensures AllCut(msgs) == msgs
  {
    forall i | 0 <= i < |msgs| ensures AllCut(msgs)[i] == msgs[i] {
      CutKeeps(msgs[i]);
    }
  }

  /** Messages that fit their lines are shown as they are: all of them while there is room, and
      the last ones afterwards. */
  lemma ShowsMessages(msgs: seq<string>, max: nat)
    requires forall i :: 0 <= i < |msgs| ==> |msgs[i]| <= 255
    ensures After([], msgs, max) == if |msgs| <= max then msgs else msgs[|msgs| - max..]
  {
    ShowsLatest(msgs, max);
    NothingCut(msgs);
  }

  /** In general line i shows the first 255 characters, at most, of the message it belongs to. */
  lemma ShowsEachMessage(msgs: seq<string>, max: nat, i: nat)
    requires i < max && i < |msgs|
    ensures var shown, first := After([], msgs, max), if |msgs| <= max then 0 else |msgs| - max;
            && |shown| == |msgs| - first
            && shown[i] == if |msgs[first + i]| <= 255 then msgs[first + i] else msgs[first + i][..255]
  {
    ShowsLatest(msgs, max);
  }

  /** A string drawn at a height. */
  datatype Drawn = Drawn(y: int, text: string)

  class Window {
    const maxDspLines: int
    const fontHeight: int
    const top: int
    var lines: nat
    var head: nat
    var tail: nat
    const msgBuffer: array<string>

    /** A window of more lines than there are buffers for works until the buffers run out. */
    ghost predicate Valid()
      reads this
    {
      && msgBuffer.Length == MAX_LINES && (lines == 0 || lines <= maxDspLines)
      && (maxDspLines > 0 ==> head < maxDspLines && tail == SlotAt(head, lines, maxDspLines))
      && (maxDspLines > MAX_LINES ==> head == 0 && lines <= MAX_LINES)
    }

    /** The next message has a line of its own or replaces one. */
    ghost predicate Ready()
      reads this
    {
      maxDspLines > 0 && tail < MAX_LINES
    }

    /** Messages can be shown for ever if 1 to 128 lines fit, and 128 of them if more do. */
    lemma ReadyExactly()
      requires Valid()
      ensures Ready() <==> maxDspLines > 0 && (maxDspLines <= 128 || lines < 128)
    {
    }

    /** The messages in the window, oldest first. */
    ghost function View(): (shown: seq<string>)
      reads this, msgBuffer
      requires Valid()
      ensures |shown| == lines
    {
      seq(lines, i requires Valid() && 0 <= i < lines reads this, msgBuffer => msgBuffer[SlotAt(head, i, maxDspLines)])
    }

    constructor (lineCount: int, height: int, rectTop: int)
      ensures Valid() && View() == [] && maxDspLines == lineCount && fontHeight == height && top == rectTop
      ensures fresh(msgBuffer)
    {
      maxDspLines, fontHeight, top := lineCount, height, rectTop;
      lines, head, tail := 0, 0, 0;
      msgBuffer := new string[MAX_LINES](_ => "");
    }

    method Clear()
      requires Valid()
      modifies this
      ensures Valid() && View() == []
    {
      tail, head := 0, 0;
      lines := 0;
    }

    /** The message into the slot at the tail, which is the oldest one's when the ring is full. */
    method StoreLine(msg: string)
      requires Valid() && Ready()
      modifies this, msgBuffer
      ensures Valid()
      ensures var text := if |msg| <= 255 then msg else msg[..255];
              View() == if old(lines) < maxDspLines then old(View()) + [text] else old(View())[1..] + [text]
    {
      msgBuffer[tail] := Cut(msg);
      lines := lines + 1;
      tail := SlotAt(tail, 1, maxDspLines);
      if lines > maxDspLines {
        lines := maxDspLines;
        head := SlotAt(head, 1, maxDspLines);
        assert View() == old(View())[1..] + [Cut(msg)];
      } else {
        assert View() == old(View()) + [Cut(msg)];
      }
    }

    method DrawMessage(msg: string) returns (screen: seq<Drawn>)
      requires Valid() && Ready()
      modifies this, msgBuffer
      ensures Valid()
      ensures var text := if |msg| <= 255 then msg else msg[..255];
              View() == Latest(old(View()) + [text], maxDspLines)
              == if |old(View())| < maxDspLines then old(View()) + [text] else old(View())[1..] + [text]
      ensures |screen| == |View()|
      ensures forall i :: 0 <= i < |screen| ==> screen[i] == Drawn(i * fontHeight + top, View()[i])
    {
      LatestPush(View(), Cut(msg), maxDspLines);
      StoreLine(msg);
      screen := UpdateScreen();
    }

    method UpdateScreen() returns (screen: seq<Drawn>)
      requires Valid()
      ensures |screen| == |View()|
      ensures forall i :: 0 <= i < |screen| ==> screen[i] == Drawn(i * fontHeight + top, View()[i])
    {
      screen := [];
      var tmp := head;
      for i := 0 to lines
        invariant |screen| == i && (i < lines ==> tmp == SlotAt(head, i, maxDspLines))
        invariant forall k :: 0 <= k < i ==> screen[k] == Drawn(k * fontHeight + top, View()[k])
      {
        screen := screen + [Drawn(i * fontHeight + top, msgBuffer[tmp])];
        tmp := SlotAt(tmp, 1, maxDspLines);
      }
    }
  }
}
