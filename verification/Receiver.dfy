/** `putReadData`: the bytes of the scoreboard's line arrive one by one and update the cells of the
    channels, the control state and, at the end of a frame, the filters, all of them in place. What
    is published is proved to be what `Decoder` and `Scoreboard` say of the whole stream. */
module Receiver {
  import opened Basics
  import opened Decoder
  import Board
  import Scoreboard

  class Receiver {
    var started: bool
    var count: nat
    const buf: array<Byte>
    var channel: nat
    var bit: nat
    /** `colorado_data` */
    const cells: array2<Byte>
    const board: Board.Board
    /** The control state before the first byte. */
    ghost const start: Control
    /** The bytes put in so far. */
    ghost var history: seq<Byte>

    ghost predicate Arrays() {
      buf.Length == BUFFER_LENGTH && cells.Length0 == 32 && cells.Length1 == 16 && board.Arrays()
    }

    ghost function ControlState(): Control
      reads this, buf
    {
      Control(started, count, buf[..], channel, bit)
    }

    /** Every cell holds what the frames so far last said. */
    ghost predicate CellsFollow(cms: seq<Commit>)
      requires cells.Length0 == 32 && cells.Length1 == 16
      reads cells
    {
      forall c, k :: 0 <= c < 32 && 0 <= k < 16 ==> cells[c, k] == Cell(cms, c, k)
    }

    /** Cells, filters and published messages are those after these frames. */
    ghost predicate Follows(cms: seq<Commit>)
      requires Arrays()
      reads cells, board, board.heat, board.place
    {
      CellsFollow(cms) && board.State() == Scoreboard.After(Events(cms)) && board.published == Scoreboard.Sent(Events(cms))
    }

    /** The state is that of an idle decoder that was given the history, and the filters have had its
        complete frames. */
    ghost predicate Valid()
      reads this, buf, cells, board, board.heat, board.place
    {
      && Arrays() && board.Valid() && ValidControl(start) && !start.started
      && ControlState() == ControlAfter(start, history)
      && Follows(Committed(history))
    }

    /** `initReadData` */
    constructor ()
      ensures Valid() && history == [] && fresh(buf) && fresh(cells) && fresh(board) && fresh(board.heat) && fresh(board.place)
    {
      started, count, channel, bit := false, 0, 0, 0;
      buf := new Byte[BUFFER_LENGTH](_ => 0);
      cells := new Byte[32, 16]((_, _) => 1);
      board := new Board.Board();
      history := [];
      start := Control(false, 0, seq(BUFFER_LENGTH, _ => 0), 0, 0);
      new;
      assert buf[..] == start.buf;
    }

    /** Stores the nibbles of a complete frame. */
    method StoreCells(ghost cms: seq<Commit>)
      requires Arrays() && ValidControl(ControlState()) && started && CellsFollow(cms)
      modifies cells
      ensures CellsFollow(cms + [Commit(channel, bit, buf[1..count])])
    {
      var j := 1;
      while j < count
        invariant 1 <= j <= count
        invariant CellsFollow(cms + [Commit(channel, bit, buf[1..j])])
      {
        var b := buf[j];
        var digit := b as int / 16 % 8;
        assert Target(bit, b) == digit * 2 + bit;
        CellSet(cms, channel, bit, buf[1..j], b);
        assert buf[1..j + 1] == buf[1..j] + [b];
        cells[channel, digit * 2 + bit] := 15 - b as int % 16;
        j := j + 1;
      }
    }

    /** Stores a complete frame, and hands its channel's cells to the filters. */
    method Complete(ghost before: seq<Commit>)
      requires Arrays() && board.Valid() && ValidControl(ControlState()) && started && Follows(before)
      modifies cells, board, board.heat, board.place
      ensures board.Valid() && Follows(before + [Commit(channel, bit, buf[1..count])])
    {
      hide Cell, Scoreboard.Dispatch, Scoreboard.After, Scoreboard.Sent, Events;
      StoreCells(before);
      ghost var cms := before + [Commit(channel, bit, buf[1..count])];
      var row: Scoreboard.Row := seq(16, k requires 0 <= k < 16 reads this, cells requires Arrays() && channel < 32 => cells[channel, k]);
      EventsSnoc(before, Commit(channel, bit, buf[1..count]));
      assert row == RowOf(cms, channel);
      Scoreboard.AfterSnoc(Events(before), Scoreboard.Event(channel, row));
      board.Handle(channel, row);
    }

    /** The part of `putReadData` that collects bytes. */
    method Collect(b: Byte)
      requires Arrays() && ValidControl(ControlState())
      modifies this`started, this`count, this`channel, this`bit, buf
      ensures ControlState() == Step(old(ControlState()), b).0
    {
      if IsAddress(b) {
        count := 1;
        started := true;
        buf[0] := b;
        bit := Bit(b);
        channel := Channel(b);
      } else if started {
        buf[count] := b;
        count := count + 1;
        if count > 9 {
          started := false;
        }
      }
    }

    /** `putReadData`: afterwards cells, filters and published messages are those of the longer stream. */
    method PutReadData(b: Byte)
      requires Valid()
      modifies this`started, this`count, this`channel, this`bit, this`history, buf, cells, board, board.heat, board.place
      ensures Valid() && history == old(history) + [b]
    {
      hide Committed, Completed, Follows, Channel, Bit, ControlAfter;
      IdleDecoderIsExact(start, history + [b]);
      StreamSnoc(start, history, b);
      assert Committed(history) + [] == Committed(history);
      if IsAddress(b) && started && count == CHANNEL_LENGTH[channel] {
        Complete(Committed(history));
      }
      Collect(b);
      history := history + [b];
    }

    /** Any bytes, one after the other. */
    method Feed(bs: seq<Byte>)
      requires Valid()
      modifies this`started, this`count, this`channel, this`bit, this`history, buf, cells, board, board.heat, board.place
      ensures Valid() && history == old(history) + bs
      ensures board.published == Scoreboard.Sent(StreamEvents(old(history) + bs))
      ensures forall c, k :: 0 <= c < 32 && 0 <= k < 16 ==> cells[c, k] == Cell(Committed(old(history) + bs), c, k)
    {
      FeedAll(bs);
      hide Committed, Cell, Scoreboard.After, Scoreboard.Sent, Events;
    }

    method FeedAll(bs: seq<Byte>)
      requires Valid()
      modifies this`started, this`count, this`channel, this`bit, this`history, buf, cells, board, board.heat, board.place
      ensures Valid() && history == old(history) + bs
    {
      hide Valid;
      for i := 0 to |bs|
        invariant Valid() && history == old(history) + bs[..i]
      {
        PutReadData(bs[i]);
        assert bs[..i + 1] == bs[..i] + [bs[i]];
      }
      assert bs[..|bs|] == bs;
    }
  }

  /** One more byte of the stream. */
  lemma StreamSnoc(c: Control, bs: seq<Byte>, b: Byte)
    requires ValidControl(c)
    ensures Committed(bs + [b]) == Committed(bs) + Listed(Completed(bs + [b]))
    ensures ControlAfter(c, bs + [b]) == Step(ControlAfter(c, bs), b).0 && Output(c, bs + [b]) == Step(ControlAfter(c, bs), b).1
  {
    hide Completed, Step;
    assert (bs + [b])[..|bs|] == bs;
  }

  lemma EventsSnoc(cms: seq<Commit>, cm: Commit)
    ensures Events(cms + [cm]) == Events(cms) + [Scoreboard.Event(cm.channel, RowOf(cms + [cm], cm.channel))]
  {
    assert (cms + [cm])[..|cms|] == cms;
  }

  lemma CellSet(cms: seq<Commit>, channel: nat, bit: nat, data: seq<Byte>, b: Byte)
    ensures forall c: nat, k: nat ::
      Cell(cms + [Commit(channel, bit, data + [b])], c, k) ==
        if c == channel && k == Target(bit, b) then Value(b) else Cell(cms + [Commit(channel, bit, data)], c, k)
  {
    hide Target;
    assert (data + [b])[..|data|] == data;
    assert (cms + [Commit(channel, bit, data + [b])])[..|cms|] == cms;
    assert (cms + [Commit(channel, bit, data)])[..|cms|] == cms;
  }
}
