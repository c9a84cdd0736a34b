/** When the scoreboard publishes what, told by the cells and by what was published before. */
module ScoreboardRules {
  import opened Basics
  import opened Scoreboard

  // ---------- What the cells read ----------

  /** What a cell reads: a digit, 10, or 0 for everything above. */
  function Shown(row: Row, c: CellNo): (d: nat)
    ensures d <= 10
  {
    if row[c] <= 10 then row[c] else 0
  }

  /** The character of a digit. */
  function Char(d: nat): char
    requires d <= 10
  {
    ('0' as int + d) as char
  }

  function At(row: Row, c: CellNo): char {
    Char(Shown(row, c))
  }

  lemma DecimalDigit(d: nat)
    requires d <= 10
    ensures Decimal(d) == if d == 10 then "10" else [Char(d)]
  {
    assert Decimal(1) == "1";
  }

  predicate IsDigit(c: char) {
    '0' <= c <= '9'
  }

  /** What a string of digits is worth. */
  function Worth(s: string): int {
    if s == "" then 0 else 10 * Worth(s[..|s| - 1]) + (s[|s| - 1] as int - '0' as int)
  }

  /** A number is published in decimal digits, without leading zeros. */
  lemma {:induction false} DecimalReads(n: nat)
    ensures var s := Decimal(n);
            Worth(s) == n && (forall i :: 0 <= i < |s| ==> IsDigit(s[i])) && (|s| > 1 ==> s[0] != '0')
  {
    var s := Decimal(n);
    var last := "0123456789"[n % 10];
    assert last as int - '0' as int == n % 10;
    if n >= 10 {
      DecimalReads(n / 10);
      assert s[..|s| - 1] == Decimal(n / 10) && s[|s| - 1] == last;
      if |Decimal(n / 10)| == 1 {
        assert Worth(Decimal(n / 10)) == Decimal(n / 10)[0] as int - '0' as int;
      }
    } else {
      assert s == [last] && s[..0] == "";
    }
  }

  function Zeros(n: nat): string {
    seq(n, _ => '0')
  }

  predicate AllRead0(row: Row, cells: seq<CellNo>) {
    forall k :: 0 <= k < |cells| ==> Shown(row, cells[k]) == 0
  }

  /** The digits are all zeros exactly if every cell reads 0. */
  lemma {:induction false} ZerosIff(row: Row, cells: seq<CellNo>)
    ensures Digits(row, cells) == Zeros(|cells|) <==> AllRead0(row, cells)
  {
    hide Decimal, BitValue;
    if cells != [] {
      var d, t := Shown(row, cells[0]), cells[1..];
      ZerosIff(row, t);
      Reads(row, cells[0]);
      DecimalDigit(d);
      DigitsLength(row, t);
      var s := Digits(row, cells);
      assert s == Decimal(d) + Digits(row, t);
      assert forall k :: 1 <= k < |cells| ==> cells[k] == t[k - 1];
      assert forall k :: 0 <= k < |t| ==> t[k] == cells[k + 1];
      assert Zeros(|cells|) == "0" + Zeros(|t|);
      if s == Zeros(|cells|) {
        assert s[0] == '0';
        assert d == 0;
        assert s[1..] == Digits(row, t) == Zeros(|t|);
      }
    }
  }

  lemma Reads(row: Row, c: CellNo)
    ensures BitValue(row[c]) == Shown(row, c)
  {}

  /** As long as no cell of a frame reads 10, another frame has the same digits exactly if all its cells
      read the same. */
  lemma {:induction false} SameDigitsIff(a: Row, b: Row, cells: seq<CellNo>)
    requires forall k :: 0 <= k < |cells| ==> Shown(a, cells[k]) < 10
    ensures Digits(a, cells) == Digits(b, cells) <==> forall k :: 0 <= k < |cells| ==> Shown(a, cells[k]) == Shown(b, cells[k])
  {
    hide Decimal, BitValue, Digits, Shown;
    NoTens(a, cells);
    DigitsLength(a, cells);
    DigitsLength(b, cells);
    if Tens(b, cells) == 0 {
      TensNone(b, cells);
      forall k | 0 <= k < |cells|
        ensures Digits(a, cells)[k] == Digits(b, cells)[k] <==> Shown(a, cells[k]) == Shown(b, cells[k])
      {
        DigitAt(a, cells, k);
        DigitAt(b, cells, k);
        CharsDiffer(Shown(a, cells[k]), Shown(b, cells[k]));
      }
    } else {
      SomeTen(b, cells);
    }
  }

  lemma CharsDiffer(d: nat, e: nat)
    requires d < 10 && e < 10
    ensures Char(d) == Char(e) <==> d == e
  {
    assert Char(d) as int == '0' as int + d && Char(e) as int == '0' as int + e;
  }

  lemma {:induction false} NoTens(row: Row, cells: seq<CellNo>)
    requires forall k :: 0 <= k < |cells| ==> Shown(row, cells[k]) < 10
    ensures Tens(row, cells) == 0
  {
    if cells != [] {
      assert forall k :: 0 <= k < |cells| - 1 ==> cells[1..][k] == cells[k + 1];
      assert Shown(row, cells[0]) < 10;
      NoTens(row, cells[1..]);
    }
  }

  lemma {:induction false} TensNone(row: Row, cells: seq<CellNo>)
    requires Tens(row, cells) == 0
    ensures forall k :: 0 <= k < |cells| ==> Shown(row, cells[k]) < 10
  {
    if cells != [] {
      TensNone(row, cells[1..]);
      assert forall k :: 0 < k < |cells| ==> cells[k] == cells[1..][k - 1];
    }
  }

  lemma {:induction false} SomeTen(row: Row, cells: seq<CellNo>)
    requires Tens(row, cells) > 0
    ensures exists k :: 0 <= k < |cells| && Shown(row, cells[k]) == 10
  {
    if row[cells[0]] == 10 {
      assert Shown(row, cells[0]) == 10;
    } else {
      SomeTen(row, cells[1..]);
      var k :| 0 <= k < |cells| - 1 && Shown(row, cells[1..][k]) == 10;
      assert cells[1..][k] == cells[k + 1];
    }
  }

  lemma {:induction false} DigitAt(row: Row, cells: seq<CellNo>, k: nat)
    requires k < |cells| && Tens(row, cells) == 0
    ensures |Digits(row, cells)| == |cells| && Shown(row, cells[k]) < 10 && Digits(row, cells)[k] == Char(Shown(row, cells[k]))
  {
    hide Decimal, BitValue;
    DigitsLength(row, cells);
    Reads(row, cells[0]);
    DecimalDigit(Shown(row, cells[0]));
    if k > 0 {
      DigitAt(row, cells[1..], k - 1);
      assert cells[1..][k - 1] == cells[k];
    }
  }

  /** With cells that read 10, different digits can look the same: 10, 1, 0 and 1, 0, 10. */
  lemma SameTextOtherDigits()
    ensures var a, b := seq(16, k => if k == 0 then 10 else if k == 2 then 1 else 0), seq(16, k => if k == 0 then 1 else if k == 4 then 10 else 0);
            Digits(a, [0, 2, 4]) == Digits(b, [0, 2, 4]) && Shown(a, 0) != Shown(b, 0)
  {
    var a: Row, b: Row := seq(16, k => if k == 0 then 10 else if k == 2 then 1 else 0), seq(16, k => if k == 0 then 1 else if k == 4 then 10 else 0);
    DigitsOfThree(a, 0, 2, 4);
    DigitsOfThree(b, 0, 2, 4);
    DecimalDigit(10);
    DecimalDigit(1);
    DecimalDigit(0);
    assert Char(1) == '1' && Char(0) == '0';
  }

  lemma DigitsOfThree(row: Row, i: CellNo, j: CellNo, k: CellNo)
    ensures Digits(row, [i, j, k]) == Decimal(Shown(row, i)) + Decimal(Shown(row, j)) + Decimal(Shown(row, k))
  {
    hide Decimal;
    var l: seq<CellNo> := [i, j, k];
    assert l[1..] == [j, k] && l[1..][1..] == [k] && l[1..][1..][1..] == [];
    assert Digits(row, [k]) == Decimal(Shown(row, k)) + "";
    assert Digits(row, [j, k]) == Decimal(Shown(row, j)) + Digits(row, [k]);
    assert Digits(row, l) == Decimal(Shown(row, i)) + Digits(row, [j, k]);
  }

  // ---------- Rounds ----------

  /** The digits of a frame of channel 18. */
  function RoundDigits(row: Row): string {
    Digits(row, [0, 2, 4, 6, 8, 10, 12, 14])
  }

  /** The digits of the last frame of channel 18; before the first one, more zeros than any frame has. */
  function LastRoundDigits(es: seq<Event>): string {
    if es == [] then Zeros(25)
    else if es[|es| - 1].channel == 18 then RoundDigits(es[|es| - 1].row)
    else LastRoundDigits(es[..|es| - 1])
  }

  lemma {:induction false} RoundsRemembered(es: seq<Event>)
    ensures After(es).rounds == LastRoundDigits(es)
  {
    hide After, ClockFrame, LaneFrame, HeaderFrame, Digits;
    if es == [] {
      UnfoldNone();
    } else {
      var before, e := es[..|es| - 1], es[|es| - 1];
      RoundsRemembered(before);
      Unfold(es);
      assert ROUND_CELLS == [0, 2, 4, 6, 8, 10, 12, 14];
      assert RoundDigits(e.row) == Digits(e.row, ROUND_CELLS);
      if e.channel == 0 {
        ClockShape(After(before), e.row);
      } else if e.channel != 18 {
        if 1 <= e.channel <= LANES { LaneShape(After(before), e.channel, e.row); }
        HeaderShape(After(before), e.row);
      }
    }
  }

  /** After any frames, a frame of channel 18 publishes a number exactly if its digits differ from those of
      the frame of channel 18 before it, and the first one always does. The number is 0 if all eight cells
      read 0, and otherwise one more than the number published last. No other frame publishes a number. */
  lemma {:induction false} RoundRule(es: seq<Event>)
    requires es != []
    ensures var before, e := es[..|es| - 1], es[|es| - 1];
            var rs := Select(OfRound, Sent(before));
            (forall i :: 0 <= i < |rs| ==> rs[i].Round?) &&
            if e.channel == 18 then
              LastSent(es) == if RoundDigits(e.row) == LastRoundDigits(before) then []
                              else [Round(if AllRead0(e.row, [0, 2, 4, 6, 8, 10, 12, 14]) then 0 else Latest(rs) + 1)]
            else Select(OfRound, LastSent(es)) == []
  {
    hide After, Sent, LastSent, Select, ClockFrame, LaneFrame, HeaderFrame, AllRead0, Digits, Latest;
    var before, e := es[..|es| - 1], es[|es| - 1];
    Unfold(es);
    RoundsRemembered(before);
    RoundsClimb(before);
    var rs := Select(OfRound, Sent(before));
    assert forall i :: 0 <= i < |rs| ==> Is(OfRound, rs[i]) && rs[i].Round?;
    if e.channel == 18 {
      ZerosIff(e.row, ROUND_CELLS);
      assert ROUND_CELLS == [0, 2, 4, 6, 8, 10, 12, 14];
      assert Zeros(8) == "00000000";
    } else if e.channel == 0 {
      ClockSelect(OfRound, After(before), e.row);
    } else {
      OtherSelect(OfRound, After(before), e);
      NoRound(After(before), e);
    }
  }

  lemma NoRound(s: Filters, e: Event)
    requires Valid(s) && e.channel != 0 && e.channel != 18
    ensures var ms := Dispatch(s, e).1; !(|ms| == 1 && ms[0].Round?)
  {
    hide LaneFrame, HeaderFrame;
    if 1 <= e.channel <= LANES {
      LaneShape(s, e.channel, e.row);
    } else if e.channel == 12 {
      HeaderShape(s, e.row);
    }
  }

  // ---------- Headers ----------

  /** The header last published; before the first one, zeros. */
  function LastHeader(ms: seq<Message>): string {
    if ms == [] then Zeros(25)
    else if ms[|ms| - 1].Header? then ms[|ms| - 1].text
    else LastHeader(ms[..|ms| - 1])
  }

  lemma {:induction false} LastHeaderAppend(ms: seq<Message>, more: seq<Message>)
    requires forall i :: 0 <= i < |more| ==> !more[i].Header?
    ensures LastHeader(ms + more) == LastHeader(ms)
  {
    if more == [] {
      assert ms + more == ms;
    } else {
      var n := |more| - 1;
      LastHeaderAppend(ms, more[..n]);
      assert (ms + more)[..|ms + more| - 1] == ms + more[..n] && (ms + more)[|ms + more| - 1] == more[n];
    }
  }

  lemma {:induction false} HeaderRemembered(es: seq<Event>)
    ensures After(es).header == LastHeader(Sent(es))
  {
    hide After, Sent, LastSent, ClockFrame, LaneFrame, RoundFrame, HeaderText;
    if es == [] {
      UnfoldNone();
    } else {
      var before, e := es[..|es| - 1], es[|es| - 1];
      HeaderRemembered(before);
      Unfold(es);
      var s, ms := After(before), LastSent(es);
      if e.channel == 12 {
        if ms == [] {
          assert Sent(before) + ms == Sent(before);
        } else {
          assert (Sent(before) + ms)[|Sent(before) + ms| - 1] == ms[1];
        }
      } else {
        if e.channel == 0 {
          ClockShape(s, e.row);
        } else if 1 <= e.channel <= LANES {
          LaneShape(s, e.channel, e.row);
        } else if e.channel == 18 {
          RoundShape(s, e.row);
        }
        LastHeaderAppend(Sent(before), ms);
      }
    }
  }

  /** Every lane's cache is empty. */
  predicate LanesNull(s: Filters)
    requires Valid(s)
  {
    forall i :: 0 <= i < 10 ==> s.heat[i] == "000000" && s.place[i] == "0"
  }

  /** The text of a header is the null header exactly if all its six cells read 0. */
  lemma NullHeaderIff(row: Row)
    ensures HeaderText(row) == "header 000 000" <==> AllRead0(row, [0, 2, 4]) && AllRead0(row, [10, 12, 14])
  {
    hide AllRead0, Digits;
    var a, b := Digits(row, [0, 2, 4]), Digits(row, [10, 12, 14]);
    DigitsLength(row, [0, 2, 4]);
    DigitsLength(row, [10, 12, 14]);
    ZerosIff(row, [0, 2, 4]);
    ZerosIff(row, [10, 12, 14]);
    assert Zeros(3) == "000";
    var t := "header " + a + " " + b;
    if t == "header 000 000" {
      assert |t| == 14 && |a| == |b| == 3;
      assert a == t[7..10] == "000" && b == t[11..] == "000";
    }
  }

  /** After any frames, a frame of channel 12 publishes its header, twice, exactly if one of its six cells
      does not read 0 and it differs from the header last published. Lane messages then stop, and what
      was cached of every lane is forgotten. */
  lemma {:induction false} HeaderRule(es: seq<Event>)
    requires es != [] && es[|es| - 1].channel == 12
    ensures var before, row := es[..|es| - 1], es[|es| - 1].row;
            var text := HeaderText(row);
            if (AllRead0(row, [0, 2, 4]) && AllRead0(row, [10, 12, 14])) || text == LastHeader(Sent(before)) then
              LastSent(es) == [] && After(es) == After(before)
            else LastSent(es) == [Header(text), Header(text)] && LanesNull(After(es)) && !After(es).sendActive
  {
    hide After, Sent, LastSent, AllRead0, HeaderText;
    Unfold(es);
    HeaderRemembered(es[..|es| - 1]);
    NullHeaderIff(es[|es| - 1].row);
  }

  // ---------- Start and stop ----------

  /** The clock shows something: one of its cells is neither 0 nor blank. */
  predicate ClockShows(row: Row) {
    exists c :: c in {6, 8, 10, 12} && row[c] != 0 && row[c] != 0x0F
  }

  lemma ClockShowsIff(row: Row)
    ensures ClockRuns(row) <==> ClockShows(row)
  {
    if ClockShows(row) {
      var c :| c in {6, 8, 10, 12} && row[c] != 0 && row[c] != 0x0F;
      assert row[2 * (c / 2)] == row[c];
    }
    if ClockRuns(row) {
      var k :| 3 <= k <= 6 && row[2 * k] != 0x0F && row[2 * k] > 0;
      assert 2 * k in {6, 8, 10, 12};
    }
  }

  /** The clock counts as running: more starts than stops were published. */
  predicate Running(es: seq<Event>) {
    |Select(OfSwitch, Sent(es))| % 2 == 1
  }

  /** After any frames, a frame of channel 0 publishes a start exactly if the clock stands and shows
      something, and a stop exactly if it runs, shows nothing, and the frame is the sixth, twelfth, ... since
      the start. With either, what was cached of every lane is forgotten. */
  lemma {:induction false} SwitchRule(es: seq<Event>)
    requires es != [] && es[|es| - 1].channel == 0
    ensures var before, row := es[..|es| - 1], es[|es| - 1].row;
            (Start in LastSent(es) <==> !Running(before) && ClockShows(row)) &&
            (Stop in LastSent(es) <==> Running(before) && SinceStart(before) % 6 == 5 && !ClockShows(row)) &&
            (Start in LastSent(es) || Stop in LastSent(es) ==> LanesNull(After(es)))
  {
    hide After, Sent, LastSent, Select, SinceStart, ClockShows, ClockRuns, Hundredths, Alternating;
    var before, e := es[..|es| - 1], es[|es| - 1];
    Unfold(es);
    StartsAndStopsAlternate(before);
    LooksEverySixth(before);
    ClockShowsIff(e.row);
    SwitchOfFrame(After(before), e.row);
  }

  lemma SwitchOfFrame(s: Filters, row: Row)
    requires Valid(s) && s.pending == s.stopping && s.noworking <= 5
    ensures var (t, ms) := ClockFrame(s, row);
            Valid(t) &&
            (Start in ms <==> !s.stopping && ClockRuns(row)) &&
            (Stop in ms <==> s.stopping && s.noworking == 5 && !ClockRuns(row)) &&
            (Start in ms || Stop in ms ==> LanesNull(t))
  {
    hide ClockRuns, Hundredths;
  }

  // ---------- Lanes and their release ----------

  /** Minutes, seconds and tenths on the clock; tenths may read 10. */
  lemma TwoSeconds(row: Row)
    ensures var minutes, seconds, tenths := 10 * Shown(row, 4) + Shown(row, 6), 10 * Shown(row, 8) + Shown(row, 10), Shown(row, 12);
            (Hundredths(row) > 200 <==> minutes > 0 || seconds > 2 || (seconds == 2 && tenths > 0)) &&
            (Hundredths(row) == 200 <==> minutes == 0 && ((seconds == 2 && tenths == 0) || (seconds == 1 && tenths == 10)))
  {}

  lemma {:induction false} HeaderPending(es: seq<Event>)
    ensures After(es).headerChange <==> TimesSinceHeader(Sent(es)) == Some(0)
  {
    hide After, Sent, LastSent, ClockFrame, LaneFrame, RoundFrame, HeaderText, TimesSinceHeader;
    if es == [] {
      UnfoldNone();
      NoTimes();
    } else {
      var before, e := es[..|es| - 1], es[|es| - 1];
      HeaderPending(before);
      Unfold(es);
      var s, ms, sent := After(before), LastSent(es), Sent(before);
      if e.channel == 0 {
        ClockShape(s, e.row);
        var t := ClockFrame(s, e.row).0;
        var first := if t.stopping == s.stopping then [] else [if t.stopping then Start else Stop];
        PendingMore(sent, first, if s.loopcount > 20 then [Time(e.row)] else []);
      } else {
        OtherShape(s, e);
        if ms == [] {
          assert sent + ms == sent;
        } else if |ms| == 2 {
          assert sent + ms == (sent + [ms[0]]) + [ms[1]];
          TimesMore(sent + [ms[0]], ms[1]);
        } else {
          TimesMore(sent, ms[0]);
          assert ms == [ms[0]];
        }
      }
    }
  }

  lemma NoTimes()
    ensures TimesSinceHeader([]) == None
  {}

  lemma PendingMore(sent: seq<Message>, first: seq<Message>, second: seq<Message>)
    requires first == [] || first == [Start] || first == [Stop]
    requires second == [] || (|second| == 1 && second[0].Time?)
    ensures TimesSinceHeader(sent + (first + second)) == Some(0) <==> second == [] && TimesSinceHeader(sent) == Some(0)
  {
    hide TimesSinceHeader;
    var mid := sent + first;
    assert sent + (first + second) == mid + second && sent + [] == sent && mid + [] == mid;
    if first != [] { TimesMore(sent, first[0]); }
    if second != [] {
      TimesMore(mid, second[0]);
      assert second == [second[0]];
    }
  }

  /** After any frames, a frame of channel 0 decides about lane messages exactly if it publishes a time. They
      are then sent if the clock shows more than two seconds, and not if it shows less, unless a header was
      published since the time before. */
  lemma {:induction false} ReleaseRule(es: seq<Event>)
    requires es != [] && es[|es| - 1].channel == 0
    ensures var before, row := es[..|es| - 1], es[|es| - 1].row;
            var n := ClockFrames(es);
            (Time(row) in LastSent(es) <==> n > 1 && n % 21 == 1) &&
            After(es).sendActive ==
              if Time(row) !in LastSent(es) || TimesSinceHeader(Sent(before)) == Some(0) || Hundredths(row) == 200
              then After(before).sendActive
              else Hundredths(row) > 200
  {
    hide After, Sent, LastSent, ClockRuns, Hundredths, TimesSinceHeader, Select;
    var before, e := es[..|es| - 1], es[|es| - 1];
    Unfold(es);
    HeaderPending(before);
    TimeEvery21(before);
    ReleaseOfFrame(After(before), e.row);
    var n := ClockFrames(before);
    if n > 0 { TurnOver(n); }
  }

  lemma TurnOver(n: nat)
    requires n > 0
    ensures (n - 1) % 21 + 1 > 20 <==> (n + 1) % 21 == 1
  {}

  lemma ReleaseOfFrame(s: Filters, row: Row)
    ensures var (t, ms) := ClockFrame(s, row);
            (Time(row) in ms <==> s.loopcount > 20) &&
            t.sendActive == if s.loopcount <= 20 || s.headerChange || Hundredths(row) == 200 then s.sendActive else Hundredths(row) > 200
  {
    hide ClockRuns, Hundredths;
  }

  /** A frame of a lane is published exactly if lane messages are sent and it brings news: another time
      than the cached one that does not read all zeros, or with the cached time another place that does
      not read 0. */
  lemma LaneRule(s: Filters, lane: nat, row: Row)
    requires Valid(s) && 1 <= lane <= 10
    ensures var i, time, place := lane - 1, Digits(row, [4, 6, 8, 10, 12, 14]), Decimal(Shown(row, 2));
            Dispatch(s, Event(lane, row)).1 ==
              if s.sendActive && ((time != s.heat[i] && !AllRead0(row, [4, 6, 8, 10, 12, 14])) ||
                                  (time == s.heat[i] && place != s.place[i] && Shown(row, 2) != 0))
              then [Lane(lane, row)] else []
  {
    hide Digits, Decimal, Cut, AllRead0;
    assert TIME_CELLS == [4, 6, 8, 10, 12, 14];
    ZerosIff(row, TIME_CELLS);
    assert Zeros(6) == "000000";
    DecimalDigit(Shown(row, 2));
    Reads(row, 2);
    if Shown(row, 2) < 10 { CharsDiffer(Shown(row, 2), 0); }
    assert Char(0) == '0';
  }

  /** The filters look at channels 0 to 10, 12 and 18 only; a frame of any other channel does nothing. */
  lemma OtherChannelsNothing(s: Filters, e: Event)
    requires Valid(s) && e.channel > 10 && e.channel != 12 && e.channel != 18
    ensures Dispatch(s, e) == (s, [])
  {}

  // ---------- Payloads ----------

  /** The form of a lane message, unless a digit of its time reads 10. */
  lemma LaneForm(lane: nat, row: Row)
    requires Shown(row, 4) < 10 && Shown(row, 6) < 10 && Shown(row, 8) < 10 && Shown(row, 10) < 10 && Shown(row, 12) < 10 && Shown(row, 14) < 10
    ensures var c := (k: CellNo) requires Shown(row, k) < 10 => Char(Shown(row, k));
            Text(Lane(lane, row)) ==
            "lane " + Decimal(lane) + [' ', At(row, 4), At(row, 6), ':', At(row, 8), At(row, 10), ',', At(row, 12), At(row, 14), ' ']
              + Decimal(Shown(row, 2))
  {
    hide Decimal, Digits;
    TwoDigits(row, 4, 6);
    TwoDigits(row, 8, 10);
    TwoDigits(row, 12, 14);
    Reads(row, 2);
    assert " " + [At(row, 4), At(row, 6)] + ":" + [At(row, 8), At(row, 10)] + "," + [At(row, 12), At(row, 14)] + " "
        == [' ', At(row, 4), At(row, 6), ':', At(row, 8), At(row, 10), ',', At(row, 12), At(row, 14), ' '];
    InPieces("lane ", Decimal(lane), [At(row, 4), At(row, 6)], [At(row, 8), At(row, 10)], [At(row, 12), At(row, 14)], Place(row));
  }

  lemma InPieces(a: string, lane: string, m: string, s: string, h: string, place: string)
    ensures a + lane + " " + m + ":" + s + "," + h + " " + place == a + lane + (" " + m + ":" + s + "," + h + " ") + place
  {}

  lemma TwoDigits(row: Row, i: CellNo, j: CellNo)
    requires Shown(row, i) < 10 && Shown(row, j) < 10
    ensures Digits(row, [i, j]) == [At(row, i), At(row, j)]
  {
    hide Decimal, BitValue;
    var l: seq<CellNo> := [i, j];
    assert l[1..] == [j] && l[1..][1..] == [];
    Reads(row, i);
    Reads(row, j);
    DecimalDigit(Shown(row, i));
    DecimalDigit(Shown(row, j));
    assert Digits(row, [j]) == Decimal(Shown(row, j)) + "";
    assert Digits(row, l) == Decimal(Shown(row, i)) + Digits(row, [j]);
  }

  /** The form of a time message. */
  lemma TimeForm(row: Row)
    requires Shown(row, 4) < 10 && Shown(row, 6) < 10 && Shown(row, 8) < 10 && Shown(row, 10) < 10 && Shown(row, 12) < 10
    ensures var c := (k: CellNo) requires Shown(row, k) < 10 => Char(Shown(row, k));
            Text(Time(row)) == "time " + [At(row, 4), At(row, 6), ':', At(row, 8), At(row, 10), ',', At(row, 12)]
  {
    hide Decimal, Digits;
    TwoDigits(row, 4, 6);
    TwoDigits(row, 8, 10);
    OneDigit(row, 12);
    assert "time " + [At(row, 4), At(row, 6)] + ":" + [At(row, 8), At(row, 10)] + "," + [At(row, 12)]
        == "time " + [At(row, 4), At(row, 6), ':', At(row, 8), At(row, 10), ',', At(row, 12)];
  }

  lemma OneDigit(row: Row, i: CellNo)
    requires Shown(row, i) < 10
    ensures Digits(row, [i]) == [At(row, i)]
  {
    hide Decimal, BitValue;
    assert [i][1..] == [];
    Reads(row, i);
    DecimalDigit(Shown(row, i));
    assert Digits(row, [i]) == Decimal(Shown(row, i)) + "";
  }

  /** The form of a header. */
  lemma HeaderForm(row: Row)
    requires Shown(row, 0) < 10 && Shown(row, 2) < 10 && Shown(row, 4) < 10 && Shown(row, 10) < 10 && Shown(row, 12) < 10 && Shown(row, 14) < 10
    ensures var c := (k: CellNo) requires Shown(row, k) < 10 => Char(Shown(row, k));
            HeaderText(row) == "header " + [At(row, 0), At(row, 2), At(row, 4), ' ', At(row, 10), At(row, 12), At(row, 14)]
  {
    hide Decimal, Digits;
    DigitsOfThree(row, 0, 2, 4);
    DigitsOfThree(row, 10, 12, 14);
    DecimalDigit(Shown(row, 0));
    DecimalDigit(Shown(row, 2));
    DecimalDigit(Shown(row, 4));
    DecimalDigit(Shown(row, 10));
    DecimalDigit(Shown(row, 12));
    DecimalDigit(Shown(row, 14));
    assert [At(row, 0)] + [At(row, 2)] + [At(row, 4)] == [At(row, 0), At(row, 2), At(row, 4)];
    assert [At(row, 10)] + [At(row, 12)] + [At(row, 14)] == [At(row, 10), At(row, 12), At(row, 14)];
    assert "header " + [At(row, 0), At(row, 2), At(row, 4)] + " " + [At(row, 10), At(row, 12), At(row, 14)]
        == "header " + [At(row, 0), At(row, 2), At(row, 4), ' ', At(row, 10), At(row, 12), At(row, 14)];
  }
}
