/** The scoreboard's event filters as values: what each complete frame does and publishes. */
module Scoreboard {
  import opened Basics

  type Row = r: seq<Byte> | |r| == 16 witness seq(16, _ => 1)

  /** The number of a cell in its row. */
  type CellNo = c: nat | c < 16

  /** `checkBitValue` */
  function BitValue(b: Byte): (d: Byte)
    ensures d <= 10
  {
    if b > 10 then 0 else b
  }

  /** A number in decimal. */
  function Decimal(n: nat): (s: string)
    ensures |s| >= 1
  {
    if n < 10 then ["0123456789"[n]] else Decimal(n / 10) + ["0123456789"[n % 10]]
  }

  /** The digits of the given cells, one after the other. */
  function Digits(row: Row, cells: seq<CellNo>): (s: string)
  {
    if cells == [] then "" else Decimal(BitValue(row[cells[0]])) + Digits(row, cells[1..])
  }

  const TIME_CELLS: seq<CellNo> := [4, 6, 8, 10, 12, 14]
  const ROUND_CELLS: seq<CellNo> := [0, 2, 4, 6, 8, 10, 12, 14]

  /** What is published over MQTT. A lane message carries the digits of its time and place. */
  datatype Message =
    | Lane(lane: nat, row: Row)
    | Time(row: Row)
    | Header(text: string)
    | Start
    | Stop
    | Round(number: nat)

  /** The time of a lane frame, as it is compared. */
  function LaneTime(row: Row): string {
    Digits(row, TIME_CELLS)
  }

  function Place(row: Row): string {
    Decimal(BitValue(row[2]))
  }

  function HeaderText(row: Row): string {
    "header " + Digits(row, [0, 2, 4]) + " " + Digits(row, [10, 12, 14])
  }

  /** The payload of a message. */
  function Text(m: Message): string {
    match m
    case Lane(lane, row) =>
      "lane " + Decimal(lane) + " " + Digits(row, [4, 6]) + ":" + Digits(row, [8, 10]) + "," + Digits(row, [12, 14]) + " " + Place(row)
    case Time(row) => "time " + Digits(row, [4, 6]) + ":" + Digits(row, [8, 10]) + "," + Digits(row, [12])
    case Header(text) => text
    case Start => "start"
    case Stop => "stop"
    case Round(number) => "round " + Decimal(number)
  }

  const LANES: nat := 10

  /** What the filters remember. */
  datatype Filters = Filters(
    loopcount: nat, sendActive: bool, headerChange: bool,
    noworking: nat, pending: bool, stopping: bool,
    header: string, heat: seq<string>, place: seq<string>,
    round: nat, rounds: string)

  predicate Valid(s: Filters) {
    |s.heat| == LANES && |s.place| == LANES && forall i :: 0 <= i < LANES ==> |s.heat[i]| <= 8
  }

  /** Before the first frame. The buffers of header and rounds hold more zeros than any text. */
  function Initial(): (s: Filters)
    ensures Valid(s)
  {
    Filters(0, false, false, 0, false, false, seq(25, _ => '0'),
            seq(LANES, _ => "000000"), seq(LANES, _ => "0"), 0, seq(25, _ => '0'))
  }

  // ---------- Lanes ----------

  /** The cache of a lane holds at most eight characters of a time. */
  function Cut(s: string): string {
    if |s| > 8 then s[..8] else s
  }

  /** `resetAllData` */
  function ResetAll(s: Filters): Filters {
    s.(heat := seq(LANES, _ => "000000"), place := seq(LANES, _ => "0"))
  }

  /** Whether a lane frame brings something to publish. */
  predicate LaneNews(heat: string, place: string, row: Row) {
    if LaneTime(row) == heat then Place(row) != place && Place(row) != "0" else LaneTime(row) != "000000"
  }

  /** A frame without a time clears what is cached for its lane. */
  predicate LaneCleared(heat: string, row: Row) {
    LaneTime(row) == "000000" && LaneTime(row) != heat
  }

  /** `getLaneTime` */
  function LaneFrame(s: Filters, lane: nat, row: Row): (Filters, seq<Message>)
    requires Valid(s) && 1 <= lane <= LANES
  {
    var i := lane - 1;
    if LaneNews(s.heat[i], s.place[i], row) then
      (s.(heat := s.heat[i := Cut(LaneTime(row))], place := s.place[i := Place(row)]),
       if s.sendActive then [Lane(lane, row)] else [])
    else if LaneCleared(s.heat[i], row) then
      (s.(heat := s.heat[i := "000000"], place := s.place[i := "0"]), [])
    else (s, [])
  }

  // ---------- Channel 0: start and stop, running time ----------

  /** Whether the clock shows anything but zeros and blanks. */
  predicate ClockRuns(row: Row) {
    exists k :: 3 <= k <= 6 && row[2 * k] != 0x0F && row[2 * k] > 0
  }

  /** `checkStartStopInternal`: the clock is looked at in every frame while it stands, and in every
      sixth while it runs. */
  function StartStop(s: Filters, row: Row): (Filters, seq<Message>) {
    var look := s.noworking + 1 > 5 || !s.pending;
    var running := if look then ClockRuns(row) else s.pending;
    var t := s.(noworking := if look then 0 else s.noworking + 1, pending := running, stopping := running);
    if running == s.stopping then (t, []) else (ResetAll(t), [if running then Start else Stop])
  }

  /** `timehundredth` */
  function Hundredths(row: Row): nat {
    var v := (i: int) requires 0 <= i < 16 => BitValue(row[i]) as nat;
    ((v(4) * 10 + v(6)) * 60 + v(8) * 10 + v(10)) * 100 + v(12) * 10
  }

  /** `getTimeInternal` */
  function RunningTime(s: Filters, row: Row): (Filters, seq<Message>) {
    if s.loopcount > 20 then
      var active := if s.headerChange then s.sendActive
                    else if Hundredths(row) > 200 then true else if Hundredths(row) < 200 then false else s.sendActive;
      (s.(sendActive := active, headerChange := false, loopcount := 1), [Time(row)])
    else (s.(loopcount := s.loopcount + 1), [])
  }

  function ClockFrame(s: Filters, row: Row): (Filters, seq<Message>) {
    var a := StartStop(s, row);
    var b := RunningTime(a.0, row);
    (b.0, a.1 + b.1)
  }

  // ---------- Channels 12 and 18 ----------

  /** `getHeaderInternal`: a new header is published twice, and stops lane messages for a while. */
  function HeaderFrame(s: Filters, row: Row): (Filters, seq<Message>) {
    var text := HeaderText(row);
    if text == "header 000 000" || text == s.header then (s, [])
    else (ResetAll(s.(sendActive := false, headerChange := true)).(header := text), [Header(text), Header(text)])
  }

  /** `storeRoundsInternal` */
  function RoundFrame(s: Filters, row: Row): (Filters, seq<Message>) {
    var text := Digits(row, ROUND_CELLS);
    if text == s.rounds then (if text == "00000000" then s.(round := 0) else s, [])
    else
      var number := if text == "00000000" then 0 else s.round + 1;
      (s.(round := number, rounds := text), [Round(number)])
  }

  // ---------- Runs ----------

  /** A complete frame: the channel, and its cells once the frame is stored. */
  datatype Event = Event(channel: nat, row: Row)

  /** The dispatch of a complete frame in `putReadData`. */
  function Dispatch(s: Filters, e: Event): (r: (Filters, seq<Message>))
    requires Valid(s)
    ensures Valid(r.0)
  {
    if 1 <= e.channel <= LANES then LaneFrame(s, e.channel, e.row)
    else if e.channel == 0 then ClockFrame(s, e.row)
    else if e.channel == 12 then HeaderFrame(s, e.row)
    else if e.channel == 18 then RoundFrame(s, e.row)
    else (s, [])
  }

  /** The filters after these frames. */
  function After(es: seq<Event>): (s: Filters)
    ensures Valid(s)
  {
    if es == [] then Initial() else Dispatch(After(es[..|es| - 1]), es[|es| - 1]).0
  }

  /** What the last of these frames published. */
  function LastSent(es: seq<Event>): seq<Message>
    requires es != []
  {
    Dispatch(After(es[..|es| - 1]), es[|es| - 1]).1
  }

  /** What these frames published. */
  function Sent(es: seq<Event>): seq<Message> {
    if es == [] then [] else Sent(es[..|es| - 1]) + LastSent(es)
  }

  lemma Unfold(es: seq<Event>)
    requires es != []
    ensures var before, e := es[..|es| - 1], es[|es| - 1];
            After(es) == Dispatch(After(before), e).0 && LastSent(es) == Dispatch(After(before), e).1 &&
            Sent(es) == Sent(before) + LastSent(es)
  {
    hide Dispatch;
  }

  lemma AfterSnoc(es: seq<Event>, e: Event)
    ensures After(es + [e]) == Dispatch(After(es), e).0 && Sent(es + [e]) == Sent(es) + Dispatch(After(es), e).1
  {
    hide Dispatch;
    assert (es + [e])[..|es|] == es;
    Unfold(es + [e]);
  }

  lemma UnfoldNone()
    ensures After([]) == Initial() && Sent([]) == []
  {}

  // ---------- What one frame can do ----------

  /** A frame of channel 0: a switch if the clock's state changed, then a time if one is due. */
  lemma ClockShape(s: Filters, row: Row)
    ensures var (t, ms) := ClockFrame(s, row);
            ms == (if t.stopping == s.stopping then [] else [if t.stopping then Start else Stop]) +
                  (if s.loopcount > 20 then [Time(row)] else []) &&
            t.loopcount == (if s.loopcount > 20 then 1 else s.loopcount + 1) &&
            t.pending == t.stopping && t.noworking == (if s.noworking >= 5 || !s.pending then 0 else s.noworking + 1) &&
            (s.pending && s.noworking < 5 ==> t.stopping) &&
            t.header == s.header && t.round == s.round && t.rounds == s.rounds &&
            (s.loopcount <= 20 || s.headerChange ==> t.sendActive == s.sendActive) &&
            t.headerChange == (s.headerChange && s.loopcount <= 20)
  {
    hide Hundredths, ClockRuns;
  }

  /** Any other frame publishes nothing, one lane message while sending is active, a header twice, or
      one round number. */
  lemma {:induction false} OtherShape(s: Filters, e: Event)
    requires Valid(s) && e.channel != 0
    ensures var (t, ms) := Dispatch(s, e);
            t.loopcount == s.loopcount && t.noworking == s.noworking && t.pending == s.pending && t.stopping == s.stopping &&
            (ms == [] || (ms == [Lane(e.channel, e.row)] && s.sendActive) ||
             (ms == [Header(t.header), Header(t.header)] && !t.sendActive && t.headerChange) || ms == [Round(t.round)]) &&
            ((|ms| == 2 && ms[0].Header?) || (t.sendActive == s.sendActive && t.headerChange == s.headerChange)) &&
            (if |ms| == 1 && ms[0].Round? then
               (t.round == 0 || t.round == s.round + 1) && (t.rounds == "00000000" ==> t.round == 0)
             else t.rounds == s.rounds && (t.round == s.round || (t.round == 0 && s.rounds == "00000000")))
  {
    hide LaneFrame, HeaderFrame, RoundFrame;
    if 1 <= e.channel <= LANES {
      LaneShape(s, e.channel, e.row);
    } else if e.channel == 12 {
      HeaderShape(s, e.row);
    } else if e.channel == 18 {
      RoundShape(s, e.row);
    }
  }

  lemma LaneShape(s: Filters, lane: nat, row: Row)
    requires Valid(s) && 1 <= lane <= LANES
    ensures var (t, ms) := LaneFrame(s, lane, row);
            t == s.(heat := t.heat, place := t.place) && (ms == [] || (ms == [Lane(lane, row)] && s.sendActive))
  {
    hide LaneNews, LaneCleared, Cut, LaneTime, Place;
  }

  lemma HeaderShape(s: Filters, row: Row)
    ensures var (t, ms) := HeaderFrame(s, row);
            t == s.(sendActive := t.sendActive, headerChange := t.headerChange, header := t.header, heat := t.heat, place := t.place) &&
            ((ms == [] && t == s) || (ms == [Header(t.header), Header(t.header)] && !t.sendActive && t.headerChange))
  {
    hide HeaderText;
  }

  lemma RoundShape(s: Filters, row: Row)
    ensures var (t, ms) := RoundFrame(s, row);
            t == s.(round := t.round, rounds := t.rounds) &&
            ((ms == [] && t.rounds == s.rounds && (t.round == s.round || (t.round == 0 && s.rounds == "00000000"))) ||
             (ms == [Round(t.round)] && (t.round == 0 || t.round == s.round + 1) && (t.rounds == "00000000" ==> t.round == 0)))
  {
    hide Digits;
  }

  // ---------- Kinds of messages ----------

  datatype Kind = OfTime | OfSwitch | OfRound

  predicate Is(k: Kind, m: Message) {
    match k
    case OfTime => m.Time?
    case OfSwitch => m.Start? || m.Stop?
    case OfRound => m.Round?
  }

  /** The messages of a kind. */
  function Select(k: Kind, ms: seq<Message>): (r: seq<Message>)
    ensures |r| <= |ms| && forall m :: m in r ==> Is(k, m)
  {
    if ms == [] then [] else (if Is(k, ms[0]) then [ms[0]] else []) + Select(k, ms[1..])
  }

  lemma {:induction false} SelectAppend(k: Kind, a: seq<Message>, b: seq<Message>)
    ensures Select(k, a + b) == Select(k, a) + Select(k, b)
  {
    hide Is;
    if a == [] {
      assert a + b == b && [] + Select(k, b) == Select(k, b);
    } else {
      var head := if Is(k, a[0]) then [a[0]] else [];
      assert (a + b)[0] == a[0] && (a + b)[1..] == a[1..] + b;
      SelectAppend(k, a[1..], b);
      assert head + (Select(k, a[1..]) + Select(k, b)) == (head + Select(k, a[1..])) + Select(k, b);
    }
  }

  lemma SelectOne(k: Kind, m: Message)
    ensures Select(k, [m]) == if Is(k, m) then [m] else []
  {
    assert [m][1..] == [];
  }

  lemma SelectTwo(k: Kind, m: Message, n: Message)
    ensures Select(k, [m, n]) == (if Is(k, m) then [m] else []) + if Is(k, n) then [n] else []
  {
    hide Select, Is;
    SelectAppend(k, [m], [n]);
    SelectOne(k, m);
    SelectOne(k, n);
    assert [m, n] == [m] + [n];
  }

  /** What a frame of channel 0 publishes of each kind. */
  lemma ClockSelect(k: Kind, s: Filters, row: Row)
    ensures var (t, ms) := ClockFrame(s, row);
            Select(k, ms) ==
              (if k.OfSwitch? && t.stopping != s.stopping then [if t.stopping then Start else Stop] else []) +
              (if k.OfTime? && s.loopcount > 20 then [Time(row)] else [])
  {
    hide ClockFrame, Select;
    ClockShape(s, row);
    var t := ClockFrame(s, row).0;
    var first := if t.stopping == s.stopping then [] else [if t.stopping then Start else Stop];
    var second := if s.loopcount > 20 then [Time(row)] else [];
    SelectAppend(k, first, second);
    SelectOne(k, if t.stopping then Start else Stop);
    SelectOne(k, Time(row));
    SelectNone(k);
  }

  lemma SelectNone(k: Kind)
    ensures Select(k, []) == []
  {}

  /** What any other frame publishes of each kind. */
  lemma OtherSelect(k: Kind, s: Filters, e: Event)
    requires Valid(s) && e.channel != 0
    ensures var (t, ms) := Dispatch(s, e);
            Select(k, ms) == if k.OfRound? && |ms| == 1 && ms[0].Round? then ms else []
  {
    hide Dispatch, Select;
    OtherShape(s, e);
    var t := Dispatch(s, e).0;
    SelectOne(k, Lane(e.channel, e.row));
    SelectTwo(k, Header(t.header), Header(t.header));
    SelectOne(k, Round(t.round));
    SelectNone(k);
  }

  // ---------- Running time: one message for every 21 frames ----------

  function ClockFrames(es: seq<Event>): nat {
    if es == [] then 0 else ClockFrames(es[..|es| - 1]) + if es[|es| - 1].channel == 0 then 1 else 0
  }

  /** After `n` frames of channel 0, exactly `(n - 1) / 21` times were published (none after no frame). */
  lemma {:induction false} TimeEvery21(es: seq<Event>)
    ensures var n := ClockFrames(es);
            |Select(OfTime, Sent(es))| == (if n == 0 then 0 else (n - 1) / 21) &&
            After(es).loopcount == if n == 0 then 0 else (n - 1) % 21 + 1
  {
    hide ClockFrame, Select, LaneFrame, HeaderFrame, RoundFrame, After, Sent, LastSent;
    if es == [] {
      UnfoldNone();
      SelectNone(OfTime);
    } else {
      var before, e := es[..|es| - 1], es[|es| - 1];
      Unfold(es);
      TimeEvery21(before);
      SelectAppend(OfTime, Sent(before), LastSent(es));
      if e.channel == 0 {
        ClockShape(After(before), e.row);
        ClockSelect(OfTime, After(before), e.row);
      } else {
        OtherShape(After(before), e);
        OtherSelect(OfTime, After(before), e);
      }
    }
  }

  // ---------- Start and stop ----------

  predicate Alternating(ms: seq<Message>) {
    forall i :: 0 <= i < |ms| ==> ms[i] == if i % 2 == 0 then Start else Stop
  }

  /** The frames of channel 0 since the one that last published a start. */
  function SinceStart(es: seq<Event>): nat {
    if es == [] then 0
    else if Start in LastSent(es) then 0
    else SinceStart(es[..|es| - 1]) + if es[|es| - 1].channel == 0 then 1 else 0
  }

  /** What a frame does to the switches. */
  lemma {:induction false} SwitchStep(s: Filters, e: Event)
    requires Valid(s)
    ensures var (t, ms) := Dispatch(s, e);
            Select(OfSwitch, ms) == (if t.stopping == s.stopping then [] else [if t.stopping then Start else Stop]) &&
            (Start in ms <==> t.stopping && !s.stopping) && (Stop in ms <==> s.stopping && !t.stopping) &&
            if e.channel != 0 then t.noworking == s.noworking && t.pending == s.pending && t.stopping == s.stopping
            else t.pending == t.stopping && t.noworking == (if s.noworking >= 5 || !s.pending then 0 else s.noworking + 1) &&
                 (s.pending && s.noworking < 5 ==> t.stopping)
  {
    hide ClockFrame, Select, LaneFrame, HeaderFrame, RoundFrame;
    if e.channel == 0 {
      ClockShape(s, e.row);
      ClockSelect(OfSwitch, s, e.row);
    } else {
      OtherShape(s, e);
      OtherSelect(OfSwitch, s, e);
    }
  }

  /** Starts and stops alternate, beginning with a start, and the clock counts as running exactly
      between a start and the next stop. */
  lemma {:induction false} StartsAndStopsAlternate(es: seq<Event>)
    ensures Alternating(Select(OfSwitch, Sent(es)))
    ensures After(es).stopping == After(es).pending == (|Select(OfSwitch, Sent(es))| % 2 == 1)
  {
    hide Dispatch, Alternating, Select, After, Sent, LastSent;
    if es == [] {
      SelectNone(OfSwitch);
      UnfoldNone();
      AlternatingNone();
    } else {
      var before, e := es[..|es| - 1], es[|es| - 1];
      Unfold(es);
      StartsAndStopsAlternate(before);
      SelectAppend(OfSwitch, Sent(before), LastSent(es));
      SwitchStep(After(before), e);
      AlternatingMore(Select(OfSwitch, Sent(before)));
      assert Select(OfSwitch, Sent(before)) + [] == Select(OfSwitch, Sent(before));
    }
  }

  /** While the clock runs, the frames until the next look are counted from the start. */
  lemma {:induction false} LooksEverySixth(es: seq<Event>)
    ensures After(es).stopping ==> After(es).noworking == SinceStart(es) % 6
    ensures After(es).noworking <= 5
  {
    hide Dispatch, Select, After, Sent, LastSent, Alternating;
    if es == [] {
      UnfoldNone();
    } else {
      var before, e := es[..|es| - 1], es[|es| - 1];
      Unfold(es);
      LooksEverySixth(before);
      StartsAndStopsAlternate(before);
      SwitchStep(After(before), e);
    }
  }

  lemma AlternatingNone()
    ensures Alternating([])
  {}

  lemma AlternatingMore(ms: seq<Message>)
    requires Alternating(ms)
    ensures Alternating(ms + [if |ms| % 2 == 0 then Start else Stop])
  {}

  /** A stop is published only with the sixth, twelfth, ... frame of channel 0 after its start. */
  lemma {:induction false} StopEverySixth(es: seq<Event>)
    requires es != [] && Stop in LastSent(es)
    ensures SinceStart(es) >= 6 && SinceStart(es) % 6 == 0
  {
    hide Dispatch, Select, Alternating, After, Sent, LastSent;
    var before, e := es[..|es| - 1], es[|es| - 1];
    Unfold(es);
    StartsAndStopsAlternate(before);
    LooksEverySixth(before);
    SwitchStep(After(before), e);
  }

  // ---------- Header and lanes ----------

  /** How many times were published since the last header, if there was one. */
  function TimesSinceHeader(ms: seq<Message>): Option<nat> {
    if ms == [] then None
    else
      var m := ms[|ms| - 1];
      if m.Header? then Some(0)
      else
        var n := TimesSinceHeader(ms[..|ms| - 1]);
        if n.Some? && m.Time? then Some(n.value + 1) else n
  }

  /** No lane message comes before the second time after a header. */
  predicate LanesWait(ms: seq<Message>) {
    forall j :: 0 <= j < |ms| && ms[j].Lane? ==>
      TimesSinceHeader(ms[..j]).None? || TimesSinceHeader(ms[..j]).value >= 2
  }

  /** One more message. */
  lemma {:induction false} OneMore(ms: seq<Message>, m: Message)
    requires LanesWait(ms)
    requires m.Lane? ==> TimesSinceHeader(ms).None? || TimesSinceHeader(ms).value >= 2
    ensures LanesWait(ms + [m])
    ensures var n := TimesSinceHeader(ms);
            TimesSinceHeader(ms + [m]) ==
              if m.Header? then Some(0) else if n.Some? && m.Time? then Some(n.value + 1) else n
  {
    hide TimesSinceHeader;
    TimesMore(ms, m);
    var all := ms + [m];
    forall j | 0 <= j < |all| && all[j].Lane?
      ensures TimesSinceHeader(all[..j]).None? || TimesSinceHeader(all[..j]).value >= 2
    {
      if j < |ms| {
        assert all[j] == ms[j] && all[..j] == ms[..j];
      } else {
        assert all[..j] == ms;
      }
    }
  }

  lemma TimesMore(ms: seq<Message>, m: Message)
    ensures var n := TimesSinceHeader(ms);
            TimesSinceHeader(ms + [m]) ==
              if m.Header? then Some(0) else if n.Some? && m.Time? then Some(n.value + 1) else n
  {
    assert (ms + [m])[..|ms|] == ms && (ms + [m])[|ms|] == m;
  }

  /** What the filters know about how long ago the last header was. */
  predicate HeaderKnown(s: Filters, n: Option<nat>) {
    n.Some? ==> (!s.headerChange ==> n.value >= 1) && (s.sendActive ==> n.value >= 2)
  }

  /** After a new header at least two times are published before any lane message. */
  lemma {:induction false} LanesWaitForTwoTimes(es: seq<Event>)
    ensures LanesWait(Sent(es)) && HeaderKnown(After(es), TimesSinceHeader(Sent(es)))
  {
    if es == [] {
      assert Sent(es) == [];
    } else {
      hide ClockFrame, LanesWait, HeaderKnown, TimesSinceHeader, LaneFrame, HeaderFrame, RoundFrame;
      var before, e := es[..|es| - 1], es[|es| - 1];
      LanesWaitForTwoTimes(before);
      if e.channel == 0 {
        ClockWaits(Sent(before), After(before), e.row);
      } else {
        OtherWaits(Sent(before), After(before), e);
      }
    }
  }

  lemma OtherWaits(sent: seq<Message>, s: Filters, e: Event)
    requires Valid(s) && e.channel != 0 && LanesWait(sent) && HeaderKnown(s, TimesSinceHeader(sent))
    ensures var (t, ms) := Dispatch(s, e); LanesWait(sent + ms) && HeaderKnown(t, TimesSinceHeader(sent + ms))
  {
    hide Dispatch, LanesWait, TimesSinceHeader;
    OtherShape(s, e);
    var ms := Dispatch(s, e).1;
    if ms == [] {
      assert sent + ms == sent;
    } else {
      OneMore(sent, ms[0]);
      if |ms| == 2 {
        OneMore(sent + [ms[0]], ms[1]);
        assert sent + ms == sent + [ms[0]] + [ms[1]];
      } else {
        assert ms == [ms[0]];
      }
    }
  }

  lemma ClockWaits(sent: seq<Message>, s: Filters, row: Row)
    requires LanesWait(sent) && HeaderKnown(s, TimesSinceHeader(sent))
    ensures var (t, ms) := ClockFrame(s, row); LanesWait(sent + ms) && HeaderKnown(t, TimesSinceHeader(sent + ms))
  {
    hide ClockFrame, LanesWait, TimesSinceHeader;
    ClockShape(s, row);
    var t := ClockFrame(s, row).0;
    var first := if t.stopping == s.stopping then [] else [if t.stopping then Start else Stop];
    var mid := sent + first;
    assert sent + [] == sent && mid + [] == mid;
    if t.stopping != s.stopping {
      OneMore(sent, first[0]);
    }
    if s.loopcount > 20 {
      OneMore(mid, Time(row));
      assert sent + (first + [Time(row)]) == mid + [Time(row)];
    } else {
      assert sent + (first + []) == mid;
    }
  }

  // ---------- Rounds ----------

  /** Every number is 0 or one more than the one before; the first is 0 or 1. */
  predicate Climbing(ms: seq<Message>)
    requires forall i :: 0 <= i < |ms| ==> ms[i].Round?
  {
    forall i :: 0 <= i < |ms| ==> ms[i].number == 0 || ms[i].number == Latest(ms[..i]) + 1
  }

  /** The number last published. */
  function Latest(ms: seq<Message>): nat
    requires forall i :: 0 <= i < |ms| ==> ms[i].Round?
  {
    if ms == [] then 0 else ms[|ms| - 1].number
  }

  /** The published round numbers climb by one or start again at 0. */
  lemma {:induction false} RoundsClimb(es: seq<Event>)
    ensures var rs := Select(OfRound, Sent(es));
            (forall i :: 0 <= i < |rs| ==> Is(OfRound, rs[i])) && Climbing(rs) && After(es).round == Latest(rs)
    ensures After(es).rounds == "00000000" ==> After(es).round == 0
  {
    if es == [] {
      SelectNone(OfRound);
    } else {
      hide ClockFrame, Climbing, LaneFrame, HeaderFrame, RoundFrame, Select;
      var before, e := es[..|es| - 1], es[|es| - 1];
      RoundsClimb(before);
      SelectAppend(OfRound, Sent(before), LastSent(es));
      var rs := Select(OfRound, Sent(before));
      assert rs + [] == rs;
      if e.channel == 0 {
        ClockShape(After(before), e.row);
        ClockSelect(OfRound, After(before), e.row);
      } else {
        OtherShape(After(before), e);
        OtherSelect(OfRound, After(before), e);
        ClimbingMore(rs, After(es).round);
      }
    }
  }

  lemma ClimbingMore(ms: seq<Message>, n: nat)
    requires forall i :: 0 <= i < |ms| ==> ms[i].Round?
    requires Climbing(ms)
    ensures n == 0 || n == Latest(ms) + 1 ==> Climbing(ms + [Round(n)])
    ensures Latest(ms + [Round(n)]) == n
  {
    var all := ms + [Round(n)];
    assert all[..|ms|] == ms;
    assert forall i :: 0 <= i < |ms| ==> all[..i] == ms[..i];
  }

  // ---------- Lane frames ----------

  /** How many digits of a lane's time read 10, which takes two characters. */
  function Tens(row: Row, cells: seq<CellNo>): nat
  {
    if cells == [] then 0 else (if row[cells[0]] == 10 then 1 else 0) + Tens(row, cells[1..])
  }

  lemma {:induction false} DigitsLength(row: Row, cells: seq<CellNo>)
    ensures |Digits(row, cells)| == |cells| + Tens(row, cells)
  {
    if cells != [] {
      DigitsLength(row, cells[1..]);
      assert Decimal(10) == "10";
    }
  }

  lemma {:induction false} DigitsAppend(row: Row, a: seq<CellNo>, b: seq<CellNo>)
    ensures Digits(row, a + b) == Digits(row, a) + Digits(row, b)
  {
    hide Decimal, BitValue;
    if a == [] {
      assert a + b == b && "" + Digits(row, b) == Digits(row, b);
    } else {
      DigitsAppend(row, a[1..], b);
      assert (a + b)[0] == a[0] && (a + b)[1..] == a[1..] + b;
      assert Digits(row, a + b) == Decimal(BitValue(row[a[0]])) + Digits(row, a[1..] + b);
    }
  }

  lemma {:induction false} TensAppend(row: Row, a: seq<CellNo>, b: seq<CellNo>)
    ensures Tens(row, a + b) == Tens(row, a) + Tens(row, b)
  {
    if a == [] {
      assert a + b == b;
    } else {
      TensAppend(row, a[1..], b);
      assert (a + b)[0] == a[0] && (a + b)[1..] == a[1..] + b;
      assert Tens(row, a + b) == (if row[a[0]] == 10 then 1 else 0) + Tens(row, a[1..] + b);
    }
  }

  /** The time of a lane frame in minutes, seconds and hundredths; each has two characters if no digit
      reads 10. */
  lemma TimeParts(row: Row)
    ensures var m, s, h := Digits(row, [4, 6]), Digits(row, [8, 10]), Digits(row, [12, 14]);
            LaneTime(row) == m + s + h && (Tens(row, TIME_CELLS) == 0 ==> |m| == |s| == |h| == 2)
  {
    hide Digits, Tens;
    TensAppend(row, [4, 6] + [8, 10], [12, 14]);
    TensAppend(row, [4, 6], [8, 10]);
    DigitsAppend(row, [4, 6] + [8, 10], [12, 14]);
    DigitsAppend(row, [4, 6], [8, 10]);
    assert [4, 6] + [8, 10] + [12, 14] == TIME_CELLS;
    DigitsLength(row, [4, 6]);
    DigitsLength(row, [8, 10]);
    DigitsLength(row, [12, 14]);
  }

  /** What is published tells time and place: lane messages with the same payload have the same, if no
      digit of their times reads 10. */
  lemma PayloadTellsResult(lane: nat, a: Row, b: Row)
    requires Tens(a, TIME_CELLS) == 0 && Tens(b, TIME_CELLS) == 0
    requires Text(Lane(lane, a)) == Text(Lane(lane, b))
    ensures LaneTime(a) == LaneTime(b) && Place(a) == Place(b)
  {
    hide Digits, Decimal, LaneTime, Place, Tens;
    TimeParts(a);
    TimeParts(b);
    PayloadParts(lane, Digits(a, [4, 6]), Digits(a, [8, 10]), Digits(a, [12, 14]), Place(a));
    PayloadParts(lane, Digits(b, [4, 6]), Digits(b, [8, 10]), Digits(b, [12, 14]), Place(b));
  }

  lemma PayloadParts(lane: nat, m: string, s: string, h: string, place: string)
    requires |m| == |s| == |h| == 2
    ensures var t := "lane " + Decimal(lane) + " " + m + ":" + s + "," + h + " " + place;
            var p := 6 + |Decimal(lane)|;
            |t| >= p + 9 && t[p..p + 2] == m && t[p + 3..p + 5] == s && t[p + 6..p + 8] == h && t[p + 9..] == place
  {
    hide Decimal;
  }

  /** The cache holds the whole time exactly if at most two of its digits read 10. */
  predicate Fits(row: Row) {
    Tens(row, TIME_CELLS) <= 2
  }

  lemma FitsLength(row: Row)
    ensures Fits(row) <==> |LaneTime(row)| <= 8
  {
    DigitsLength(row, TIME_CELLS);
  }

  /** After a frame of a lane its cached time is the frame's, exactly if that fits the cache. */
  lemma CacheFollows(s: Filters, lane: nat, row: Row)
    requires Valid(s) && 1 <= lane <= LANES
    ensures LaneFrame(s, lane, row).0.heat[lane - 1] == LaneTime(row) <==> Fits(row)
  {
    FitsLength(row);
    hide Fits, Digits, Place;
  }

  /** A repeated frame is silent and changes nothing, exactly if the first one did not clear the lane's
      cache in spite of a place, and if its time fits the cache or nothing is sent at all. */
  lemma RepeatedFrameIff(s: Filters, lane: nat, row: Row)
    requires Valid(s) && 1 <= lane <= LANES
    ensures var t := LaneFrame(s, lane, row).0;
            Valid(t) &&
            (LaneFrame(t, lane, row) == (t, []) <==>
             !(LaneCleared(s.heat[lane - 1], row) && Place(row) != "0") && (Fits(row) || !s.sendActive))
  {
    FitsLength(row);
    hide Fits, LaneTime, Place;
    var i := lane - 1;
    var t := LaneFrame(s, lane, row).0;
    if LaneNews(s.heat[i], s.place[i], row) {
      assert t.heat[i := Cut(LaneTime(row))] == t.heat && t.place[i := Place(row)] == t.place;
    }
  }

  /** A cleared lane whose frame shows a place publishes the null time when the frame is repeated. */
  lemma RepeatedFrameCanPublish()
    ensures var row := seq(16, k => if k == 2 then 1 else 0);
            var s := Initial().(sendActive := true, heat := Initial().heat[0 := "123456"]);
            Valid(s) && LaneFrame(s, 1, row).1 == [] && LaneFrame(LaneFrame(s, 1, row).0, 1, row).1 == [Lane(1, row)]
  {
    var row: Row := seq(16, k => if k == 2 then 1 else 0);
    var s := Initial().(sendActive := true, heat := Initial().heat[0 := "123456"]);
    NullTime(row);
    assert Place(row) == "1";
    hide LaneTime, Place;
    assert LaneCleared(s.heat[0], row);
  }

  lemma NullTime(row: Row)
    requires forall k :: 4 <= k < 16 ==> row[k] == 0
    ensures LaneTime(row) == "000000"
  {
    ZeroDigits(row, TIME_CELLS);
  }

  lemma {:induction false} ZeroDigits(row: Row, cells: seq<CellNo>)
    requires forall k :: 0 <= k < |cells| ==> row[cells[k]] == 0
    ensures |Digits(row, cells)| == |cells| && forall k :: 0 <= k < |cells| ==> Digits(row, cells)[k] == '0'
  {
    if cells != [] {
      ZeroDigits(row, cells[1..]);
      assert Decimal(0) == "0";
    }
  }

  /** The filters and messages of further frames. */
  function RunFrom(s: Filters, es: seq<Event>): (Filters, seq<Message>)
    requires Valid(s)
    decreases |es|
  {
    if es == [] then (s, [])
    else
      var (t, ms) := Dispatch(s, es[0]);
      var (u, rest) := RunFrom(t, es[1..]);
      (u, ms + rest)
  }

  /** Whether a frame clears what is cached for a lane. */
  predicate ResetsLane(s: Filters, e: Event, lane: nat)
    requires Valid(s) && 1 <= lane <= LANES
  {
    if e.channel == 0 then StartStop(s, e.row).0.stopping != s.stopping
    else if e.channel == 12 then HeaderFrame(s, e.row).1 != []
    else e.channel == lane && !LaneNews(s.heat[lane - 1], s.place[lane - 1], e.row) && LaneCleared(s.heat[lane - 1], e.row)
  }

  /** Sending stays active, nothing resets the lane, and its times fit the cache. */
  predicate Steady(s: Filters, es: seq<Event>, lane: nat)
    requires Valid(s) && 1 <= lane <= LANES
    decreases |es|
  {
    es == [] ||
    (s.sendActive && !ResetsLane(s, es[0], lane) && (es[0].channel == lane ==> Fits(es[0].row)) &&
     Steady(Dispatch(s, es[0]).0, es[1..], lane))
  }

  /** Time and place in the messages of a lane. */
  function Results(ms: seq<Message>, lane: nat): seq<(string, string)> {
    if ms == [] then []
    else (if ms[0].Lane? && ms[0].lane == lane then [(LaneTime(ms[0].row), Place(ms[0].row))] else []) + Results(ms[1..], lane)
  }

  lemma {:induction false} ResultsAppend(a: seq<Message>, b: seq<Message>, lane: nat)
    ensures Results(a + b, lane) == Results(a, lane) + Results(b, lane)
  {
    hide LaneTime, Place;
    if a == [] {
      assert a + b == b && [] + Results(b, lane) == Results(b, lane);
    } else {
      var head := if a[0].Lane? && a[0].lane == lane then [(LaneTime(a[0].row), Place(a[0].row))] else [];
      assert (a + b)[0] == a[0] && (a + b)[1..] == a[1..] + b;
      ResultsAppend(a[1..], b, lane);
      assert head + (Results(a[1..], lane) + Results(b, lane)) == (head + Results(a[1..], lane)) + Results(b, lane);
    }
  }

  predicate NoRepeats(x: seq<(string, string)>) {
    forall i :: 0 < i < |x| ==> x[i] != x[i - 1]
  }

  function Cached(s: Filters, lane: nat): (string, string)
    requires Valid(s) && 1 <= lane <= LANES
  {
    (s.heat[lane - 1], s.place[lane - 1])
  }

  /** While sending stays active and nothing resets the lane, any two successive messages of the lane
      differ in time or place, the first of them from what was cached before. */
  lemma {:induction false} SuccessiveMessagesDiffer(s: Filters, es: seq<Event>, lane: nat)
    requires Valid(s) && 1 <= lane <= LANES && Steady(s, es, lane)
    ensures NoRepeats([Cached(s, lane)] + Results(RunFrom(s, es).1, lane))
    decreases |es|
  {
    hide ResetsLane, Dispatch, Results, Fits, Cached;
    if es == [] {
      NoResults(lane);
    } else {
      var (t, ms) := Dispatch(s, es[0]);
      var rest := RunFrom(t, es[1..]).1;
      SuccessiveMessagesDiffer(t, es[1..], lane);
      SteadyStep(s, es[0], lane);
      ResultsAppend(ms, rest, lane);
      if Results(ms, lane) == [] {
        assert [] + Results(rest, lane) == Results(rest, lane);
      } else {
        var x, y := [Cached(s, lane)], [Cached(t, lane)] + Results(rest, lane);
        assert x + (Results(ms, lane) + Results(rest, lane)) == x + y;
      }
    }
  }

  lemma NoResults(lane: nat)
    ensures Results([], lane) == []
  {}

  lemma ResultsOne(m: Message, lane: nat)
    ensures Results([m], lane) == if m.Lane? && m.lane == lane then [(LaneTime(m.row), Place(m.row))] else []
    ensures !m.Lane? ==> Results([m, m], lane) == []
  {
    assert [m][1..] == [] && [m, m][1..] == [m];
  }

  /** One steady frame: nothing of the lane is published and its cache stays, or what is published is new
      and is cached. */
  lemma SteadyStep(s: Filters, e: Event, lane: nat)
    requires Valid(s) && 1 <= lane <= LANES && s.sendActive
    requires !ResetsLane(s, e, lane) && (e.channel == lane ==> Fits(e.row))
    ensures var (t, ms) := Dispatch(s, e);
            (Results(ms, lane) == [] && Cached(t, lane) == Cached(s, lane)) ||
            (Results(ms, lane) == [Cached(t, lane)] && Cached(t, lane) != Cached(s, lane))
  {
    hide Fits, LaneTime, Place, Results, ClockRuns, Hundredths, Digits;
    NoResults(lane);
    var (t, ms) := Dispatch(s, e);
    if e.channel == 0 {
      ResultsOne(Time(e.row), lane);
      var (a, first) := StartStop(s, e.row);
      var second := RunningTime(a, e.row).1;
      assert first == [] && [] + second == second;
      assert ms == second;
    } else if 1 <= e.channel <= LANES {
      FitsLength(e.row);
      ResultsOne(Lane(e.channel, e.row), lane);
    } else if e.channel == 18 {
      ResultsOne(Round(t.round), lane);
    }
  }
}
