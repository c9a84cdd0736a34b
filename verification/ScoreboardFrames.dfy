/** Frames as the scoreboard sends them, and what the decoder makes of their bytes. */
module ScoreboardFrames {
  import opened Basics
  import opened Decoder
  import Scoreboard

  // ---------- The bytes of a frame ----------

  /** The address byte: the top bit, the channel inverted in bits 5 to 1, and the control bit. */
  function Address(channel: nat, bit: nat): Byte
    requires channel < 32 && bit < 2
  {
    0x80 + 2 * (31 - channel) + bit
  }

  /** The data bytes: each has the number of a digit in bits 6 to 4 and the digit inverted in bits 3 to 0. */
  function DataBytes(digits: seq<Byte>): (data: seq<Byte>)
    requires |digits| <= 8 && forall k :: 0 <= k < |digits| ==> digits[k] < 16
    ensures |data| == |digits| && forall k :: 0 <= k < |data| ==> data[k] == 16 * k + 15 - digits[k] < 0x80
  {
    seq(|digits|, k requires 0 <= k < |digits| => 16 * k + 15 - digits[k])
  }

  /** How many digits a frame of a channel carries: six on the clock, four on channel 22, eight on the lanes
      and seven other channels. The remaining channels have no frames. */
  function DigitsOf(channel: nat): Option<nat> {
    if channel == 0 then Some(6)
    else if 1 <= channel <= 10 || channel in {12, 14, 15, 17, 18} then Some(8)
    else if channel == 22 then Some(4)
    else None
  }

  lemma LengthTable(channel: nat)
    requires channel < 32
    ensures CHANNEL_LENGTH[channel] == if DigitsOf(channel).Some? then DigitsOf(channel).value + 1 else 0
  {}

  /** The decoder takes the address byte apart. */
  lemma AddressRead(channel: nat, bit: nat)
    requires channel < 32 && bit < 2
    ensures var a := Address(channel, bit); IsAddress(a) && Channel(a) == channel && Bit(a) == bit
  {
    var x := 31 - channel;
    assert (0x80 + 2 * x + bit) / 2 == 0x40 + x;
  }

  /** And the data bytes. */
  lemma DataRead(digits: seq<Byte>, bit: nat, k: nat)
    requires |digits| <= 8 && bit < 2 && k < |digits| && forall i :: 0 <= i < |digits| ==> digits[i] < 16
    ensures var b := DataBytes(digits)[k]; !IsAddress(b) && Target(bit, b) == 2 * k + bit && Value(b) == digits[k]
  {}

  // ---------- From the stream to the cells ----------

  /** Bytes that are no address bytes complete nothing, and do not move the last address byte. */
  lemma {:induction false} DataCompletesNothing(bs: seq<Byte>, data: seq<Byte>)
    requires forall i :: 0 <= i < |data| ==> !IsAddress(data[i])
    ensures Committed(bs + data) == Committed(bs) && LastAddress(bs + data) == LastAddress(bs)
  {
    hide Channel, Bit;
    if data == [] {
      assert bs + data == bs;
    } else {
      var n := |data| - 1;
      var all := bs + data;
      DataCompletesNothing(bs, data[..n]);
      assert all[..|all| - 1] == bs + data[..n] && all[|all| - 1] == data[n];
      assert Committed(all) == Committed(all[..|all| - 1]) + [];
    }
  }

  /** A cell is what the last data byte for it says. */
  lemma {:induction false} DigitSet(digits: seq<Byte>, bit: nat, n: nat, k: nat)
    requires |digits| <= 8 && bit < 2 && k < 16 && n <= |digits| && forall i :: 0 <= i < |digits| ==> digits[i] < 16
    ensures Setting(bit, DataBytes(digits)[..n], k) ==
            if k % 2 == bit && k / 2 < n then Some(digits[k / 2]) else None
    decreases n
  {
    hide Target, Value;
    if n > 0 {
      var data := DataBytes(digits)[..n];
      assert data[..n - 1] == DataBytes(digits)[..n - 1] && data[n - 1] == DataBytes(digits)[n - 1];
      DataRead(digits, bit, n - 1);
      DigitSet(digits, bit, n - 1, k);
    }
  }

  /** The cells of a channel before and after a frame: the digits of the frame go to every second cell, from
      the one its control bit says, and the other cells stay. */
  predicate Updated(before: Scoreboard.Row, after: Scoreboard.Row, bit: nat, digits: seq<Byte>) {
    forall k :: 0 <= k < 16 ==> after[k] == if k % 2 == bit && k / 2 < |digits| then digits[k / 2] else before[k]
  }

  /** Whatever was received before: when the bytes of a frame and then an address byte arrive, exactly one
      more frame is handed to the filters, with its channel and with its digits in its channel's cells. */
  lemma {:induction false} FrameArrives(bs: seq<Byte>, channel: nat, bit: nat, digits: seq<Byte>, next: Byte)
    requires channel < 32 && bit < 2 && DigitsOf(channel) == Some(|digits|) && IsAddress(next)
    requires forall i :: 0 <= i < |digits| ==> digits[i] < 16
    ensures var start := bs + [Address(channel, bit)];
            var events, earlier := StreamEvents(start + DataBytes(digits) + [next]), StreamEvents(start);
            |events| == |earlier| + 1 && events[..|earlier|] == earlier &&
            events[|earlier|].channel == channel &&
            Updated(RowOf(Committed(start), channel), events[|earlier|].row, bit, digits)
  {
    hide Channel, Bit, Address, Committed, Events, RowOf, Updated;
    var a, data := Address(channel, bit), DataBytes(digits);
    var start := bs + [a];
    var all := start + data + [next];
    AddressRead(channel, bit);
    assert forall i :: 0 <= i < |data| ==> !IsAddress(data[i]);
    DataCompletesNothing(start, data);
    assert start[|start| - 1] == a;
    assert LastAddress(start) == Some(|bs|);
    LengthTable(channel);
    assert all[..|all| - 1] == start + data && all[|bs|] == a && all[|bs| + 1..|all| - 1] == data;
    var cm := Commit(channel, bit, data);
    assert Completed(all) == Some(cm);
    OneMoreFrame(start, all, cm);
    RowUpdated(Committed(start), cm, digits);
  }

  lemma OneMoreFrame(start: seq<Byte>, all: seq<Byte>, cm: Commit)
    requires all != [] && Committed(all[..|all| - 1]) == Committed(start) && Completed(all) == Some(cm)
    ensures StreamEvents(all) == StreamEvents(start) + [Scoreboard.Event(cm.channel, RowOf(Committed(start) + [cm], cm.channel))]
  {
    hide RowOf, Completed;
    var cms := Committed(start) + [cm];
    assert Committed(all) == cms;
    assert cms[..|cms| - 1] == Committed(start);
  }

  lemma RowUpdated(cms: seq<Commit>, cm: Commit, digits: seq<Byte>)
    requires |digits| <= 8 && cm.bit < 2 && forall i :: 0 <= i < |digits| ==> digits[i] < 16
    requires cm.data == DataBytes(digits)
    ensures Updated(RowOf(cms, cm.channel), RowOf(cms + [cm], cm.channel), cm.bit, digits)
  {
    hide Setting;
    forall k | 0 <= k < 16
      ensures Cell(cms + [cm], cm.channel, k) ==
              if k % 2 == cm.bit && k / 2 < |digits| then digits[k / 2] else Cell(cms, cm.channel, k)
    {
      DigitSet(digits, cm.bit, |digits|, k);
      assert cm.data[..|digits|] == cm.data;
      assert (cms + [cm])[..|cms|] == cms;
    }
  }
}
