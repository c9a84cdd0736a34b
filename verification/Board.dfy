/** The event filters of the scoreboard as the source has them: functions over global variables that
    are updated in place, here the fields of one object, and a trace of what is published. What each
    of them does is proved to be what `Scoreboard` says of the filter as a value. */
module Board {
  import opened Basics
  import opened Scoreboard

  class Board {
    var loopcount: nat
    var sendActive: bool
    var headerChange: bool
    var noworking: nat
    var pending: bool
    var stopping: bool
    var header: string
    const heat: array<string>
    const place: array<string>
    var round: nat
    var rounds: string
    /** Everything published, in order. */
    var published: seq<Message>

    ghost predicate Arrays() {
      heat.Length == LANES && place.Length == LANES && heat != place
    }

    ghost function State(): Filters
      reads this, heat, place
    {
      Filters(loopcount, sendActive, headerChange, noworking, pending, stopping, header, heat[..], place[..], round, rounds)
    }

    ghost predicate Valid()
      reads this, heat, place
    {
      Arrays() && Scoreboard.Valid(State())
    }

    /** `initRunninTime`, `initanalyseLane`, `initanalyseHeader`, `initanalyseData` */
    constructor ()
      ensures Valid() && State() == Initial() && published == []
      ensures fresh(heat) && fresh(place)
    {
      loopcount, sendActive, headerChange, noworking, pending, stopping := 0, false, false, 0, false, false;
      header, rounds, round := seq(25, _ => '0'), seq(25, _ => '0'), 0;
      heat := new string[LANES](_ => "000000");
      place := new string[LANES](_ => "0");
      published := [];
      new;
      assert heat[..] == Initial().heat && place[..] == Initial().place;
    }

    /** `mqtt_send` */
    method Send(m: Message)
      modifies this`published
      ensures published == old(published) + [m]
    {
      published := published + [m];
    }

    method ResetTimeAndPlace(lane: nat)
      requires Arrays() && 1 <= lane <= LANES
      modifies heat, place
      ensures heat[..] == old(heat[..])[lane - 1 := "000000"] && place[..] == old(place[..])[lane - 1 := "0"]
    {
      place[lane - 1] := "0";
      heat[lane - 1] := "000000";
    }

    method ResetAllData()
      requires Valid()
      modifies heat, place
      ensures Valid() && State() == ResetAll(old(State()))
    {
      for lane := 0 to LANES
        invariant forall i :: 0 <= i < lane ==> heat[i] == "000000" && place[i] == "0"
      {
        ResetTimeAndPlace(lane + 1);
      }
      assert heat[..] == ResetAll(old(State())).heat && place[..] == ResetAll(old(State())).place;
    }

    method SendLaneData(m: Message)
      modifies this`published
      ensures published == old(published) + if sendActive then [m] else []
    {
      if sendActive {
        Send(m);
      }
    }

    method GetLaneTime(lane: nat, row: Row)
      requires Valid() && 1 <= lane <= LANES
      modifies this`published, heat, place
      ensures Valid()
      ensures var r := LaneFrame(old(State()), lane, row); State() == r.0 && published == old(published) + r.1
    {
      hide Digits, Decimal;
      var time, newPlace := LaneTime(row), Place(row);
      var matched := false;
      if time == heat[lane - 1] {
        matched := true;
        if newPlace != place[lane - 1] && newPlace != "0" {
          matched := false;
        }
      } else if time == "000000" {
        matched := true;
        ResetTimeAndPlace(lane);
      }
      if BitValue(row[2]) == 0 && BitValue(row[14]) == 13 {
        matched := true;
      }
      if !matched {
        SendLaneData(Lane(lane, row));
        heat[lane - 1] := Cut(time);
        place[lane - 1] := newPlace;
      }
    }

    method CheckNotNull(row: Row) returns (running: bool)
      modifies this`noworking, this`pending
      ensures var look := old(noworking) + 1 > 5 || !old(pending);
              running == (if look then ClockRuns(row) else old(pending)) && pending == running &&
              noworking == if look then 0 else old(noworking) + 1
    {
      noworking := noworking + 1;
      if noworking > 5 || !pending {
        noworking := 0;
        var i := 12;
        while i > 4
          invariant 4 <= i <= 12 && i % 2 == 0
          invariant forall k :: i / 2 < k <= 6 ==> row[2 * k] == 0x0F || row[2 * k] == 0
        {
          if row[i] != 0x0F && row[i] > 0 {
            assert row[2 * (i / 2)] == row[i];
            pending := true;
            return true;
          }
          assert row[2 * (i / 2)] == row[i];
          i := i - 2;
        }
        pending := false;
        return false;
      }
      return pending;
    }

    method CheckStartStop(row: Row)
      requires Valid()
      modifies this`noworking, this`pending, this`stopping, this`published, heat, place
      ensures Valid()
      ensures var r := StartStop(old(State()), row); State() == r.0 && published == old(published) + r.1
    {
      hide ClockRuns;
      var running := CheckNotNull(row);
      if stopping != running {
        ResetAllData();
        Send(if running then Start else Stop);
      }
      stopping := running;
    }

    method TimeHundredth(row: Row) returns (hundredths: nat)
      modifies this`sendActive
      ensures hundredths == Hundredths(row)
      ensures sendActive == if Hundredths(row) > 200 then true else if Hundredths(row) < 200 then false else old(sendActive)
    {
      var minutes := BitValue(row[4]) * 10 + BitValue(row[6]);
      var seconds := BitValue(row[8]) * 10 + BitValue(row[10]);
      var decent := BitValue(row[12]);
      hundredths := (minutes * 60 + seconds) * 100 + decent * 10;
      if hundredths > 200 {
        sendActive := true;
      }
      if hundredths < 200 {
        sendActive := false;
      }
    }

    method GetTime(row: Row)
      requires Valid()
      modifies this`loopcount, this`sendActive, this`headerChange, this`published
      ensures Valid()
      ensures var r := RunningTime(old(State()), row); State() == r.0 && published == old(published) + r.1
    {
      hide Hundredths;
      if loopcount > 20 {
        if !headerChange {
          var _ := TimeHundredth(row);
        }
        headerChange := false;
        Send(Time(row));
        loopcount := 0;
      }
      loopcount := loopcount + 1;
    }

    method SetSendActiveStateOff()
      modifies this`sendActive, this`headerChange
      ensures !sendActive && headerChange
    {
      sendActive := false;
      headerChange := true;
    }

    method GetHeader(row: Row)
      requires Valid()
      modifies this`sendActive, this`headerChange, this`header, this`published, heat, place
      ensures Valid()
      ensures var r := HeaderFrame(old(State()), row); State() == r.0 && published == old(published) + r.1
      ensures published != old(published) ==>
                !sendActive && forall i :: 0 <= i < LANES ==> heat[i] == "000000" && place[i] == "0"
    {
      hide HeaderText;
      var text := HeaderText(row);
      var matched := true;
      if text != "header 000 000" && text != header {
        matched := false;
        Send(Header(text));
        SetSendActiveStateOff();
        ResetAllData();
      }
      if !matched {
        Send(Header(text));
        header := text;
        assert published == old(published) + [Header(text), Header(text)];
      }
    }

    method StoreRounds(row: Row)
      requires Valid()
      modifies this`round, this`rounds, this`published
      ensures Valid()
      ensures var r := RoundFrame(old(State()), row); State() == r.0 && published == old(published) + r.1
      ensures var text := Digits(row, [0, 2, 4, 6, 8, 10, 12, 14]);
              rounds == text && round == (if text == "00000000" then 0 else if text == old(rounds) then old(round) else old(round) + 1) &&
              published == old(published) + if text == old(rounds) then [] else [Round(round)]
    {
      hide Digits;
      assert ROUND_CELLS == [0, 2, 4, 6, 8, 10, 12, 14];
      var text := Digits(row, ROUND_CELLS);
      if text == "00000000" {
        round := 0;
        if text != rounds {
          rounds := text;
          Send(Round(round));
        }
      }
      if text != rounds {
        round := round + 1;
        rounds := text;
        Send(Round(round));
      }
    }

    /** The dispatch in `putReadData`. */
    method Handle(channel: nat, row: Row)
      requires Valid()
      modifies this, heat, place
      ensures Valid()
      ensures var r := Dispatch(old(State()), Event(channel, row)); State() == r.0 && published == old(published) + r.1
    {
      hide LaneFrame, StartStop, RunningTime, HeaderFrame, RoundFrame, Scoreboard.Valid;
      if channel != 0 && channel < LANES + 1 {
        GetLaneTime(channel, row);
      } else if channel == 0 {
        CheckStartStop(row);
        ghost var first := published;
        GetTime(row);
        var a := StartStop(old(State()), row);
        assert old(published) + a.1 + RunningTime(a.0, row).1 == old(published) + (a.1 + RunningTime(a.0, row).1);
      } else if channel == 0x0c {
        GetHeader(row);
      } else if channel == 0x12 {
        StoreRounds(row);
      }
    }
  }
}
