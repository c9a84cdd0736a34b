/** The scoreboard's byte stream: which frames are complete, and what the channel cells then hold. */
module Decoder {
  import opened Basics
  import Scoreboard

  /** The number of bytes of a frame of each channel, its address byte included; 0 for channels without. */
  const CHANNEL_LENGTH: seq<nat> := [7, 9, 9, 9, 9, 9, 9, 9, 9, 9, 9, 0, 9, 0, 9, 9, 0, 9, 9, 0, 0, 0, 5, 0, 0, 0, 0, 0, 0, 0, 0, 0]

  const BUFFER_LENGTH: nat := 10

  predicate IsAddress(b: Byte) {
    b >= 0x80
  }

  function Channel(address: Byte): (c: nat)
    ensures c < 32
  {
    31 - (address as int / 2) % 32
  }

  function Bit(address: Byte): (b: nat)
    ensures b < 2
  {
    address as int % 2
  }

  /** A frame as it is stored: the data bytes received for a channel and its control bit. */
  datatype Commit = Commit(channel: nat, bit: nat, data: seq<Byte>)

  // ---------- The stream ----------

  /** The position of the last address byte. */
  function LastAddress(bs: seq<Byte>): (p: Option<nat>)
    ensures p.Some? ==> p.value < |bs| && IsAddress(bs[p.value]) && forall i :: p.value < i < |bs| ==> !IsAddress(bs[i])
    ensures p.None? ==> forall i :: 0 <= i < |bs| ==> !IsAddress(bs[i])
  {
    if bs == [] then None
    else if IsAddress(bs[|bs| - 1]) then Some(|bs| - 1)
    else LastAddress(bs[..|bs| - 1])
  }

  /** What the last byte of the stream completes: the bytes between two successive address bytes, if
      their number is the one for the channel. */
  function Completed(bs: seq<Byte>): Option<Commit>
    requires bs != []
  {
    var n := |bs| - 1;
    var p := LastAddress(bs[..n]);
    if IsAddress(bs[n]) && p.Some? && n - p.value == CHANNEL_LENGTH[Channel(bs[p.value])] then
      Some(Commit(Channel(bs[p.value]), Bit(bs[p.value]), bs[p.value + 1..n]))
    else None
  }

  function Listed<T>(o: Option<T>): seq<T> {
    if o.Some? then [o.value] else []
  }

  /** All complete frames of the stream, in order. */
  function Committed(bs: seq<Byte>): seq<Commit> {
    if bs == [] then [] else Committed(bs[..|bs| - 1]) + Listed(Completed(bs))
  }

  // ---------- The control state ----------

  /** What `putReadData` keeps between bytes, apart from the cells. */
  datatype Control = Control(started: bool, count: nat, buf: seq<Byte>, channel: nat, bit: nat)

  /** Any state of these variables in which the buffer is not overrun. */
  predicate ValidControl(c: Control) {
    |c.buf| == BUFFER_LENGTH && c.channel < 32 && c.bit < 2 && (c.started ==> 1 <= c.count <= 9)
  }

  /** One byte: the next control state, and the frame that is complete now. */
  function Step(c: Control, b: Byte): (r: (Control, Option<Commit>))
    requires ValidControl(c)
    ensures ValidControl(r.0)
  {
    if IsAddress(b) then
      (Control(true, 1, c.buf[0 := b], Channel(b), Bit(b)),
       if c.started && c.count == CHANNEL_LENGTH[c.channel] then Some(Commit(c.channel, c.bit, c.buf[1..c.count])) else None)
    else if c.started then
      (c.(buf := c.buf[c.count := b], count := c.count + 1, started := c.count + 1 <= 9), None)
    else (c, None)
  }

  /** The control state after these bytes. */
  function ControlAfter(c: Control, bs: seq<Byte>): (r: Control)
    requires ValidControl(c)
    ensures ValidControl(r)
  {
    if bs == [] then c else Step(ControlAfter(c, bs[..|bs| - 1]), bs[|bs| - 1]).0
  }

  /** The frame that the last of these bytes completes for a decoder starting in state `c`. */
  function Output(c: Control, bs: seq<Byte>): Option<Commit>
    requires ValidControl(c) && bs != []
  {
    Step(ControlAfter(c, bs[..|bs| - 1]), bs[|bs| - 1]).1
  }

  /** From the first address byte on, the control state is what the stream says, wherever it started. */
  lemma {:induction false} ControlFollowsStream(c: Control, bs: seq<Byte>)
    requires ValidControl(c) && LastAddress(bs).Some?
    ensures var p := LastAddress(bs).value;
            var r := ControlAfter(c, bs);
            if |bs| - p <= 9 then
              r.started && r.count == |bs| - p && r.buf[..r.count] == bs[p..] && r.channel == Channel(bs[p]) && r.bit == Bit(bs[p])
            else !r.started
  {
    hide Channel, Bit;
    var n := |bs| - 1;
    var b := bs[n];
    if !IsAddress(b) {
      var p := LastAddress(bs).value;
      assert LastAddress(bs[..n]) == Some(p);
      ControlFollowsStream(c, bs[..n]);
      var before := ControlAfter(c, bs[..n]);
      if before.started {
        assert bs[p..] == bs[..n][p..] + [b];
        assert before.buf[before.count := b][..before.count + 1] == before.buf[..before.count] + [b];
      }
    } else {
      var before := ControlAfter(c, bs[..n]);
      assert bs[n..] == [b] == before.buf[0 := b][..1];
    }
  }

  /** A decoder in any state completes, from the second address byte on, exactly the segments between
      successive address bytes that have the length for their channel. */
  lemma {:induction false} CompletesSegments(c: Control, bs: seq<Byte>)
    requires ValidControl(c) && bs != [] && LastAddress(bs[..|bs| - 1]).Some?
    ensures Output(c, bs) == Completed(bs)
  {
    hide Channel, Bit;
    var n := |bs| - 1;
    var p := LastAddress(bs[..n]).value;
    ControlFollowsStream(c, bs[..n]);
    var before := ControlAfter(c, bs[..n]);
    assert bs[..n][p] == bs[p];
    if before.started {
      assert before.buf[1..before.count] == before.buf[..before.count][1..];
      assert bs[..n][p..][1..] == bs[p + 1..n];
    } else {
      LengthsFit(Channel(bs[p]));
    }
  }

  lemma LengthsFit(channel: nat)
    requires channel < 32
    ensures CHANNEL_LENGTH[channel] <= 9
  {}

  /** Two decoders started in any states agree on every frame from the second address byte on. */
  lemma {:induction false} DecodersAgree(c: Control, d: Control, bs: seq<Byte>)
    requires ValidControl(c) && ValidControl(d) && bs != [] && LastAddress(bs[..|bs| - 1]).Some?
    ensures Output(c, bs) == Output(d, bs)
  {
    CompletesSegments(c, bs);
    CompletesSegments(d, bs);
  }

  /** Before the first address byte nothing is kept. */
  lemma {:induction false} IdleBeforeAddress(c: Control, bs: seq<Byte>)
    requires ValidControl(c) && !c.started && LastAddress(bs).None?
    ensures ControlAfter(c, bs) == c
  {
    if bs != [] {
      IdleBeforeAddress(c, bs[..|bs| - 1]);
    }
  }

  /** A decoder that starts idle completes exactly the segments of the stream. */
  lemma {:induction false} IdleDecoderIsExact(c: Control, bs: seq<Byte>)
    requires ValidControl(c) && !c.started && bs != []
    ensures Output(c, bs) == Completed(bs)
  {
    if LastAddress(bs[..|bs| - 1]).Some? {
      CompletesSegments(c, bs);
    } else {
      IdleBeforeAddress(c, bs[..|bs| - 1]);
    }
  }

  // ---------- The cells ----------

  /** The cell that a data byte of a frame sets, and its new value: the nibble inverted. */
  function Target(bit: nat, b: Byte): (k: nat)
    ensures bit < 2 ==> k < 16
  {
    2 * (b as int / 16 % 8) + bit
  }

  function Value(b: Byte): Byte {
    15 - b as int % 16
  }

  /** What these data bytes last set a cell to. */
  function Setting(bit: nat, data: seq<Byte>, k: nat): Option<Byte> {
    if data == [] then None
    else
      var b := data[|data| - 1];
      if Target(bit, b) == k then Some(Value(b)) else Setting(bit, data[..|data| - 1], k)
  }

  /** A cell holds what the last frame of its channel that set it said, and 1 before. */
  function Cell(cms: seq<Commit>, channel: nat, k: nat): Byte {
    if cms == [] then 1
    else
      var cm := cms[|cms| - 1];
      if cm.channel == channel && Setting(cm.bit, cm.data, k).Some? then Setting(cm.bit, cm.data, k).value
      else Cell(cms[..|cms| - 1], channel, k)
  }

  function RowOf(cms: seq<Commit>, channel: nat): Scoreboard.Row {
    seq(16, k requires 0 <= k < 16 => Cell(cms, channel, k))
  }

  /** What the complete frames hand to the filters: each with its channel's cells at that moment. */
  function Events(cms: seq<Commit>): seq<Scoreboard.Event> {
    if cms == [] then []
    else Events(cms[..|cms| - 1]) + [Scoreboard.Event(cms[|cms| - 1].channel, RowOf(cms, cms[|cms| - 1].channel))]
  }

  /** The events of a byte stream. */
  function StreamEvents(bs: seq<Byte>): seq<Scoreboard.Event> {
    Events(Committed(bs))
  }

  /** Whatever bytes arrive: times are published every 21 frames of channel 0, starts and stops
      alternate, lane messages wait for two times after a header, and round numbers climb. */
  lemma {:induction false} AnyStream(bs: seq<Byte>)
    ensures var es := StreamEvents(bs);
            var sent := Scoreboard.Sent(es);
            var n := Scoreboard.ClockFrames(es);
            var rounds := Scoreboard.Select(Scoreboard.OfRound, sent);
            |Scoreboard.Select(Scoreboard.OfTime, sent)| == (if n == 0 then 0 else (n - 1) / 21) &&
            Scoreboard.Alternating(Scoreboard.Select(Scoreboard.OfSwitch, sent)) &&
            Scoreboard.LanesWait(sent) &&
            (forall i :: 0 <= i < |rounds| ==> rounds[i].Round?) && Scoreboard.Climbing(rounds)
  {
    hide Scoreboard.Alternating, Scoreboard.LanesWait, Scoreboard.Climbing, Scoreboard.Select, Scoreboard.Sent, Scoreboard.ClockFrames;
    var es := StreamEvents(bs);
    Scoreboard.TimeEvery21(es);
    Scoreboard.StartsAndStopsAlternate(es);
    Scoreboard.LanesWaitForTwoTimes(es);
    Scoreboard.RoundsClimb(es);
  }
}
