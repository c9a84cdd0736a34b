/** The levels of topic names and filters (section 4.7), and their checks. */
module Topics {
  import opened Basics

  type CString = s: string | '\0' !in s

  const MAX_TOPIC_LENGTH := 65535
  const TOPIC_HIERARCHY_LIMIT := 200

  // ---------- The level structure ----------

  /** The levels of a topic name or filter: what stands between its `/` separators. */
  function Levels(s: string): (levels: seq<string>)
    ensures |levels| >= 1
  {
    if s == "" then [""]
    else
      var rest := Levels(s[1..]);
      if s[0] == '/' then [""] + rest else [[s[0]] + rest[0]] + rest[1..]
  }

  /** The string whose levels are `levels`. */
  function Join(levels: seq<string>): string
    requires |levels| >= 1
  {
    if |levels| == 1 then levels[0] else levels[0] + "/" + Join(levels[1..])
  }

  lemma {:induction false} JoinLevels(s: string)
    ensures Join(Levels(s)) == s
  {
    if s != "" {
      var rest := Levels(s[1..]);
      JoinLevels(s[1..]);
      if s[0] == '/' {
        assert Levels(s)[1..] == rest;
        assert s == "/" + s[1..];
      } else {
        assert Levels(s)[1..] == rest[1..];
        assert s == [s[0]] + s[1..];
      }
    }
  }

  /** The separators split a string in one way only. */
  lemma {:induction false} LevelsJoin(levels: seq<string>)
    requires |levels| >= 1
    requires forall k :: 0 <= k < |levels| ==> '/' !in levels[k]
    ensures Levels(Join(levels)) == levels
    decreases |levels|, |levels[0]|
  {
    var s := Join(levels);
    if levels[0] == "" {
      if |levels| > 1 {
        LevelsJoin(levels[1..]);
        assert s[1..] == Join(levels[1..]);
      }
    } else {
      var shorter := [levels[0][1..]] + levels[1..];
      assert shorter[1..] == levels[1..];
      assert Join(shorter) == s[1..];
      assert s[0] == levels[0][0];
      assert levels[0][0] in levels[0];
      forall k | 0 <= k < |shorter| ensures '/' !in shorter[k] {
        if k > 0 { assert shorter[k] == levels[k]; }
      }
      LevelsJoin(shorter);
      assert [s[0]] + shorter[0] == levels[0];
      assert [levels[0]] + shorter[1..] == levels;
    }
  }

  predicate WildcardFree(s: string) {
    '+' !in s && '#' !in s
  }

  /** A filter level is free of wildcards, is exactly `+`, or is exactly a final `#`. */
  predicate LevelOk(level: string, last: bool) {
    WildcardFree(level) || level == "+" || (level == "#" && last)
  }

  predicate ValidLevels(levels: seq<string>) {
    forall k :: 0 <= k < |levels| ==> LevelOk(levels[k], k == |levels| - 1)
  }

  /** Section 4.7.1: the wildcards of the filter each fill a whole level, `#` only the last. */
  predicate ValidFilter(s: string) {
    ValidLevels(Levels(s))
  }

  /** Level-by-level matching: `+` stands for one level, a final `#` for zero or more. */
  predicate LevelMatch(filter: seq<string>, topic: seq<string>) {
    if filter == [] then topic == []
    else if filter == ["#"] then true
    else topic != [] && (filter[0] == "+" || filter[0] == topic[0]) && LevelMatch(filter[1..], topic[1..])
  }

  /** Section 4.7.2: a leading `$` is matched by a leading `$` and by nothing else. */
  predicate Matches(filter: string, topic: string)
    requires filter != "" && topic != ""
  {
    (filter[0] == '$') == (topic[0] == '$') && LevelMatch(Levels(filter), Levels(topic))
  }

  // ---------- Validity, character by character ----------

  /** Validity of the rest of a filter; `atStart` says that the rest begins a level. */
  predicate GoodTail(s: string, atStart: bool) {
    s == "" ||
    (&& (s[0] == '+' ==> atStart && (|s| == 1 || s[1] == '/'))
     && (s[0] == '#' ==> atStart && |s| == 1)
     && GoodTail(s[1..], s[0] == '/'))
  }

  /** The neighbour tests of the source accept exactly the filters with valid levels. */
  lemma {:induction false} GoodTailIsValidLevels(s: string)
    ensures GoodTail(s, true) <==> ValidFilter(s)
    ensures GoodTail(s, false) <==> ValidFilter(s) && WildcardFree(Levels(s)[0])
  {
    if s != "" {
      var rest, levels := Levels(s[1..]), Levels(s);
      GoodTailIsValidLevels(s[1..]);
      if s[0] == '/' {
        assert levels[1..] == rest;
        ValidLevelsCons("", rest);
      } else {
        assert levels[1..] == rest[1..];
        ValidLevelsCons(levels[0], rest[1..]);
        ValidLevelsCons(rest[0], rest[1..]);
        assert rest == [rest[0]] + rest[1..];
        FirstLevelChars(s);
      }
    }
  }

  lemma {:induction false} ValidLevelsCons(first: string, rest: seq<string>)
    ensures ValidLevels([first] + rest) <==> LevelOk(first, rest == []) && ValidLevels(rest)
  {
    var all := [first] + rest;
    assert all[0] == first && forall k :: 0 < k < |all| ==> all[k] == rest[k - 1];
    if ValidLevels(all) {
      assert forall k :: 0 <= k < |rest| ==> rest[k] == all[k + 1];
    }
  }

  /** The first level goes on to the first separator. */
  lemma {:induction false} FirstLevelChars(s: string)
    requires s != "" && s[0] != '/'
    ensures Levels(s)[0] != "" && Levels(s)[0][0] == s[0] && Levels(s)[0][1..] == Levels(s[1..])[0]
    ensures forall c :: c in Levels(s)[0] <==> c == s[0] || c in Levels(s[1..])[0]
    ensures Levels(s[1..])[0] == "" <==> |s| == 1 || s[1] == '/'
    ensures |Levels(s)| == 1 && |Levels(s)[0]| == 1 <==> |s| == 1
  {
    var first := Levels(s)[0];
    assert first == [s[0]] + Levels(s[1..])[0];
    assert forall c :: c in [s[0]] + Levels(s[1..])[0] <==> c == s[0] || c in Levels(s[1..])[0];
  }

  // ---------- mosquitto_pub_topic_check and mosquitto_sub_topic_check ----------

  /** The limits that both checks put on a topic string. */
  predicate WithinLimits(s: string, withBroker: bool) {
    |s| <= 65535 && (withBroker ==> |Levels(s)| - 1 <= 200)
  }

  function SlashCount(s: string): nat {
    if s == "" then 0 else (if s[|s| - 1] == '/' then 1 else 0) + SlashCount(s[..|s| - 1])
  }

  lemma {:induction false} SlashCountFront(s: string)
    requires s != ""
    ensures SlashCount(s) == (if s[0] == '/' then 1 else 0) + SlashCount(s[1..])
  {
    if |s| > 1 {
      SlashCountFront(s[..|s| - 1]);
      assert s[1..][..|s| - 2] == s[..|s| - 1][1..];
    }
  }

  lemma {:induction false} SlashCountIsLevels(s: string)
    ensures |Levels(s)| == SlashCount(s) + 1
  {
    if s != "" {
      SlashCountFront(s);
      SlashCountIsLevels(s[1..]);
    }
  }

  method PubTopicCheck(str: CString, withBroker: bool) returns (rc: Rc)
    ensures rc == (if WildcardFree(str) && WithinLimits(str, withBroker) then Success else Inval)
  {
    var len, hierCount := 0, 0;
    while len < |str|
      invariant 0 <= len <= |str|
      invariant WildcardFree(str[..len])
      invariant hierCount == if withBroker then SlashCount(str[..len]) else 0
    {
      assert str[..len + 1] == str[..len] + [str[len]];
      assert str[..len + 1][..len] == str[..len];
      if str[len] == '+' || str[len] == '#' {
        return Inval;
      } else if withBroker && str[len] == '/' {
        hierCount := hierCount + 1;
      }
      len := len + 1;
    }
    assert str[..len] == str;
    SlashCountIsLevels(str);
    if len > MAX_TOPIC_LENGTH { return Inval; }
    if withBroker && hierCount > TOPIC_HIERARCHY_LIMIT { return Inval; }
    return Success;
  }

  /** `mosquitto_sub_topic_check`: walks the string and remembers the previous character. */
  method SubTopicCheck(str: CString, withBroker: bool) returns (rc: Rc)
    ensures rc == (if ValidFilter(str) && WithinLimits(str, withBroker) then Success else Inval)
  {
    var c, len, hierCount := '\0', 0, 0;
    GoodTailIsValidLevels(str);
    assert str[0..] == str;
    while len < |str|
      invariant 0 <= len <= |str|
      invariant c == if len == 0 then '\0' else str[len - 1]
      invariant ValidFilter(str) == GoodTail(str[len..], c == '\0' || c == '/')
      invariant hierCount == if withBroker then SlashCount(str[..len]) else 0
    {
      var rest := str[len..];
      assert rest[1..] == str[len + 1..];
      assert str[..len + 1][..len] == str[..len];
      assert str[len] in str;
      if str[len] == '+' {
        if (c != '\0' && c != '/') || (len + 1 != |str| && str[len + 1] != '/') {
          return Inval;
        }
      } else if str[len] == '#' {
        if (c != '\0' && c != '/') || len + 1 != |str| {
          return Inval;
        }
      } else if withBroker && str[len] == '/' {
        hierCount := hierCount + 1;
      }
      c := str[len];
      len := len + 1;
    }
    assert str[..len] == str;
    SlashCountIsLevels(str);
    if len > MAX_TOPIC_LENGTH { return Inval; }
    if withBroker && hierCount > TOPIC_HIERARCHY_LIMIT { return Inval; }
    return Success;
  }

  /** `mosquitto_sub_topic_check2`: the same decision with an explicit length. */
  method SubTopicCheck2(str: CString, withBroker: bool) returns (rc: Rc)
    ensures rc == (if ValidFilter(str) && WithinLimits(str, withBroker) then Success else Inval)
  {
    var len := |str|;
    if len > MAX_TOPIC_LENGTH { return Inval; }
    var c, hierCount := '\0', 0;
    GoodTailIsValidLevels(str);
    assert str[0..] == str;
    for i := 0 to len
      invariant c == if i == 0 then '\0' else str[i - 1]
      invariant ValidFilter(str) == GoodTail(str[i..], c == '\0' || c == '/')
      invariant hierCount == if withBroker then SlashCount(str[..i]) else 0
    {
      assert str[i..][1..] == str[i + 1..];
      assert str[..i + 1][..i] == str[..i];
      assert str[i] in str;
      if str[i] == '+' {
        if (c != '\0' && c != '/') || (i < len - 1 && str[i + 1] != '/') { return Inval; }
      } else if str[i] == '#' {
        if (c != '\0' && c != '/') || i < len - 1 { return Inval; }
      } else if withBroker && str[i] == '/' {
        hierCount := hierCount + 1;
      }
      c := str[i];
    }
    assert str[..len] == str;
    SlashCountIsLevels(str);
    if withBroker && hierCount > TOPIC_HIERARCHY_LIMIT { return Inval; }
    return Success;
  }
}
